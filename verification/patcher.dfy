/**
 * The marker patcher: five literal-marker substitutions, run in a fixed order
 * over the agent template's bytes. Each replaces the first occurrence of its
 * marker with a payload built to the marker's length; a missing marker or a
 * payload that cannot be built stops the patch with that marker's own error.
 */
module Patcher {
  import opened Wrappers
  import opened Sequences
  import opened Errors

  /** The bytes of a string whose characters all fit in a byte. */
  function Ascii(s: string): (b: seq<byte>)
    requires forall i :: 0 <= i < |s| ==> s[i] as int < 256
    ensures |b| == |s|
    ensures forall i :: 0 <= i < |s| ==> b[i] == (s[i] as int) as byte
  {
    seq(|s|, i requires 0 <= i < |s| => (s[i] as int) as byte)
  }

  /** The placeholders compiled into the template, and the prefix every agent ident starts with. */
  const EvidenceKeyMarker: seq<byte> := Ascii("3j9WmmDgBqyU270FTid3719g64bP4s52")
  const ConfigKeyMarker: seq<byte> := Ascii("Adf5V57gQtyi90wUhpb8Neg56756j87R")
  const SignatureMarker: seq<byte> := Ascii("f7Hk0f5usd04apdvqw13F5ed25soV5eD")
  const AgentIdMarker: seq<byte> := Ascii("av3pVck1gb4eR2")
  const DemoMarker: seq<byte> := Ascii("hxVtdxJ/Z8LvK3ULSnKRUmLE")
  const IdentPrefix: seq<byte> := Ascii("RCS_")

  /**
   * The deployment record (`factory` item) as the patch uses it. The MD5 digests
   * of its keys stand in for the keys: None when the key is nil, where
   * `Digest::MD5.digest` raises. `config` is the encrypted form of its first
   * configuration, None when it has none.
   */
  datatype FactoryItem = FactoryItem(
    ident: seq<byte>,
    logKeyDigest: Option<seq<byte>>,
    confKeyDigest: Option<seq<byte>>,
    config: Option<seq<byte>>)

  /** The values `SecureRandom` supplies to one patch. */
  datatype Entropy = Entropy(
    evidenceTail: seq<byte>,
    configTail: seq<byte>,
    signatureTail: seq<byte>,
    identHex: seq<byte>,
    demoBytes: seq<byte>)

  /** A lower-case hexadecimal digit, as `SecureRandom.hex` produces. */
  predicate IsHexDigit(b: byte)
  {
    0x30 <= b <= 0x39 || 0x61 <= b <= 0x66
  }

  /** `random_bytes(16)` three times, `hex(2)` (four hex digits) and `random_bytes(24)`. */
  predicate WellFormedEntropy(rnd: Entropy)
  {
    && |rnd.evidenceTail| == 16
    && |rnd.configTail| == 16
    && |rnd.signatureTail| == 16
    && |rnd.identHex| == 4
    && (forall i :: 0 <= i < 4 ==> IsHexDigit(rnd.identHex[i]))
    && |rnd.demoBytes| == 24
  }

  /** An MD5 digest is 16 bytes long. */
  predicate IsDigest(d: Option<seq<byte>>)
  {
    d.Some? ==> |d.value| == 16
  }

  /** The digests an actual run supplies. */
  predicate WellFormedSecrets(f: FactoryItem, signature: Option<seq<byte>>)
  {
    IsDigest(f.logKeyDigest) && IsDigest(f.confKeyDigest) && IsDigest(signature)
  }

  /**
   * One substitution: the marker to find, the payload to write (None when it
   * could not be computed) and the error the surrounding `rescue` raises.
   */
  datatype Substitution = Substitution(marker: seq<byte>, payload: Option<seq<byte>>, failure: BuildError)

  /** The payload replaces the marker byte for byte. */
  predicate Exact(sub: Substitution)
  {
    sub.payload.Some? ==> |sub.payload.value| == |sub.marker|
  }

  /** Runs one substitution: it fails exactly when its payload is missing or its marker is absent. */
  function Apply(content: seq<byte>, sub: Substitution): (r: Result<seq<byte>, BuildError>)
    ensures r.Failure? <==> sub.payload.None? || !Contains(content, sub.marker)
    ensures r.Failure? ==> r.error == sub.failure
    ensures r.Success? ==> Some(r.value) == ReplaceFirst(content, sub.marker, sub.payload.value)
  {
    match sub.payload
    case None => Failure(sub.failure)
    case Some(p) =>
      match ReplaceFirst(content, sub.marker, p)
      case None => Failure(sub.failure)
      case Some(c) => Success(c)
  }

  /** Runs the substitutions in order; the first failure stops the rest. */
  function ApplyAll(content: seq<byte>, subs: seq<Substitution>): Result<seq<byte>, BuildError>
    decreases |subs|
  {
    if |subs| == 0 then Success(content)
    else
      match Apply(content, subs[0])
      case Failure(e) => Failure(e)
      case Success(c) => ApplyAll(c, subs[1..])
  }

  /** The total change in length the payloads of `subs` make. */
  function Growth(subs: seq<Substitution>): int
    decreases |subs|
  {
    if |subs| == 0 then 0
    else
      (if subs[0].payload.Some? then |subs[0].payload.value| - |subs[0].marker| else 0) + Growth(subs[1..])
  }

  /**
   * Offset `k` lies outside every region a successful run of `subs`
   * overwrites, each region taken in the buffer its substitution saw.
   */
  predicate Untouched(content: seq<byte>, subs: seq<Substitution>, k: int)
    decreases |subs|
  {
    if |subs| == 0 then true
    else
      match Apply(content, subs[0])
      case Failure(_) => true
      case Success(c) =>
        var i := FindFirst(content, subs[0].marker).value;
        !(i <= k < i + |subs[0].marker|) && Untouched(c, subs[1..], k)
  }

  /** Running `a + b` is running `a`, then `b` on its output. */
  lemma {:induction false} ApplyAllAppend(content: seq<byte>, a: seq<Substitution>, b: seq<Substitution>)
    ensures ApplyAll(content, a + b) ==
            match ApplyAll(content, a)
            case Failure(e) => Failure(e)
            case Success(c) => ApplyAll(c, b)
    decreases |a|
  {
    if |a| == 0 {
      assert a + b == b;
    } else {
      assert (a + b)[0] == a[0];
      assert (a + b)[1..] == a[1..] + b;
      match Apply(content, a[0])
      case Failure(_) =>
      case Success(c) => ApplyAllAppend(c, a[1..], b);
    }
  }

  /** A successful run changes the length by exactly the payloads' growth. */
  lemma {:induction false} ApplyAllLength(content: seq<byte>, subs: seq<Substitution>)
    requires ApplyAll(content, subs).Success?
    ensures |ApplyAll(content, subs).value| == |content| + Growth(subs)
    decreases |subs|
  {
    if |subs| > 0 {
      var c := Apply(content, subs[0]).value;
      ApplyAllLength(c, subs[1..]);
    }
  }

  /**
   * With same-length payloads, a successful run keeps the buffer's length and
   * every byte outside the regions its substitutions overwrote.
   */
  lemma {:induction false} ApplyAllFrame(content: seq<byte>, subs: seq<Substitution>)
    requires forall j :: 0 <= j < |subs| ==> Exact(subs[j])
    requires ApplyAll(content, subs).Success?
    ensures |ApplyAll(content, subs).value| == |content|
    ensures forall k :: 0 <= k < |content| && Untouched(content, subs, k) ==>
                          ApplyAll(content, subs).value[k] == content[k]
    decreases |subs|
  {
    if |subs| > 0 {
      var sub := subs[0];
      assert Exact(sub);
      var c := Apply(content, sub).value;
      ReplaceSameLength(content, sub.marker, sub.payload.value);
      var i := FindFirst(content, sub.marker).value;
      assert forall j :: 0 <= j < |subs[1..]| ==> subs[1..][j] == subs[j + 1];
      ApplyAllFrame(c, subs[1..]);
    }
  }

  /** A successful run had a payload for every substitution. */
  lemma {:induction false} ApplyAllSuccessPayloads(content: seq<byte>, subs: seq<Substitution>)
    requires ApplyAll(content, subs).Success?
    ensures forall j :: 0 <= j < |subs| ==> subs[j].payload.Some?
    decreases |subs|
  {
    if |subs| > 0 {
      ApplyAllSuccessPayloads(Apply(content, subs[0]).value, subs[1..]);
      assert forall j :: 1 <= j < |subs| ==> subs[j] == subs[1..][j - 1];
    }
  }

  /** When every substitution but the m-th is exact, the growth is the m-th payload's alone. */
  lemma {:induction false} GrowthExceptOne(subs: seq<Substitution>, m: nat)
    requires m < |subs| && subs[m].payload.Some?
    requires forall j :: 0 <= j < |subs| && j != m ==> Exact(subs[j])
    ensures Growth(subs) == |subs[m].payload.value| - |subs[m].marker|
    decreases |subs|
  {
    if m > 0 {
      assert Exact(subs[0]);
      assert forall j :: 0 <= j < |subs[1..]| ==> subs[1..][j] == subs[j + 1];
      GrowthExceptOne(subs[1..], m - 1);
    } else {
      assert forall j :: 0 <= j < |subs[1..]| ==> subs[1..][j] == subs[j + 1];
      GrowthOfExact(subs[1..]);
    }
  }

  /** Exact payloads do not change the length. */
  lemma {:induction false} GrowthOfExact(subs: seq<Substitution>)
    requires forall j :: 0 <= j < |subs| ==> Exact(subs[j])
    ensures Growth(subs) == 0
    decreases |subs|
  {
    if |subs| > 0 {
      assert Exact(subs[0]);
      assert forall j :: 0 <= j < |subs[1..]| ==> subs[1..][j] == subs[j + 1];
      GrowthOfExact(subs[1..]);
    }
  }

  /** A prefix of a run whose first substitution passed: that substitution, then the rest of the prefix. */
  lemma ApplyPrefixStep(content: seq<byte>, subs: seq<Substitution>, n: nat)
    requires 0 < n <= |subs| && Apply(content, subs[0]).Success?
    ensures ApplyAll(content, subs[..n]) == ApplyAll(Apply(content, subs[0]).value, subs[1..n])
  {
    var t := subs[..n];
    assert t[0] == subs[0] && t[1..] == subs[1..n];
  }

  /**
   * A failed run failed at some substitution that every earlier one let pass,
   * and reports that substitution's error.
   */
  lemma {:induction false} ApplyAllFailsAtFirst(content: seq<byte>, subs: seq<Substitution>)
    requires ApplyAll(content, subs).Failure?
    ensures exists k :: 0 <= k < |subs| && ApplyAll(content, subs[..k]).Success?
                        && Apply(ApplyAll(content, subs[..k]).value, subs[k]).Failure?
                        && ApplyAll(content, subs).error == subs[k].failure
    decreases |subs|
  {
    if Apply(content, subs[0]).Failure? {
      assert subs[..0] == [];
    } else {
      var c := Apply(content, subs[0]).value;
      var rest := subs[1..];
      ApplyAllFailsAtFirst(c, rest);
      var k :| 0 <= k < |rest| && ApplyAll(c, rest[..k]).Success?
               && Apply(ApplyAll(c, rest[..k]).value, rest[k]).Failure?
               && ApplyAll(c, rest).error == rest[k].failure;
      ApplyPrefixStep(content, subs, k + 1);
      assert rest[..k] == subs[1..k + 1];
      assert rest[k] == subs[k + 1];
    }
  }

  /** When the first `k` substitutions pass and the next one fails, the run reports that one's error. */
  lemma FailsAtStep(content: seq<byte>, subs: seq<Substitution>, k: nat)
    requires k < |subs|
    requires ApplyAll(content, subs[..k]).Success?
    requires Apply(ApplyAll(content, subs[..k]).value, subs[k]).Failure?
    ensures ApplyAll(content, subs) == Failure(subs[k].failure)
  {
    assert subs == subs[..k] + subs[k..];
    ApplyAllAppend(content, subs[..k], subs[k..]);
    assert subs[k..][0] == subs[k];
  }

  /**
   * When the substitutions' errors are pairwise distinct, the error a run
   * reports names the one substitution that failed after all earlier ones passed.
   */
  lemma FailsExactlyAtStep(content: seq<byte>, subs: seq<Substitution>, k: nat)
    requires k < |subs|
    requires forall i, j :: 0 <= i < j < |subs| ==> subs[i].failure != subs[j].failure
    ensures ApplyAll(content, subs) == Failure(subs[k].failure) <==>
              ApplyAll(content, subs[..k]).Success? && Apply(ApplyAll(content, subs[..k]).value, subs[k]).Failure?
  {
    if ApplyAll(content, subs[..k]).Success? && Apply(ApplyAll(content, subs[..k]).value, subs[k]).Failure? {
      FailsAtStep(content, subs, k);
    }
    if ApplyAll(content, subs) == Failure(subs[k].failure) {
      ApplyAllFailsAtFirst(content, subs);
      var j :| 0 <= j < |subs| && ApplyAll(content, subs[..j]).Success?
               && Apply(ApplyAll(content, subs[..j]).value, subs[j]).Failure?
               && ApplyAll(content, subs).error == subs[j].failure;
      assert j == k;
    }
  }

  /** The Agent ID payload: the ident with its first `RCS_` swapped for four hex digits. */
  function AgentId(ident: seq<byte>, hex: seq<byte>): Option<seq<byte>>
  {
    ReplaceFirst(ident, IdentPrefix, hex)
  }

  /** A key payload: a secret's digest followed by random padding, or None when the secret is nil. */
  function KeyPayload(digest: Option<seq<byte>>, tail: seq<byte>): Option<seq<byte>>
  {
    match digest
    case None => None
    case Some(d) => Some(d + tail)
  }

  /** The four substitutions every build performs, in program order. */
  function KeySubstitutions(f: FactoryItem, signature: Option<seq<byte>>, rnd: Entropy): seq<Substitution>
  {
    [ Substitution(EvidenceKeyMarker, KeyPayload(f.logKeyDigest, rnd.evidenceTail), EvidenceKeyMarkerNotFound),
      Substitution(ConfigKeyMarker, KeyPayload(f.confKeyDigest, rnd.configTail), ConfigKeyMarkerNotFound),
      Substitution(SignatureMarker, KeyPayload(signature, rnd.signatureTail), SignatureMarkerNotFound),
      Substitution(AgentIdMarker, AgentId(f.ident, rnd.identHex), AgentIdMarkerNotFound) ]
  }

  /**
   * A key substitution with a 16-byte digest and 16 random bytes writes the
   * key over the first occurrence of its 32-byte marker and nothing else:
   * the length and every byte outside those 32 stay as they were.
   */
  lemma KeySubstitutionFrame(content: seq<byte>, marker: seq<byte>, digest: seq<byte>, tail: seq<byte>,
                             failure: BuildError)
    requires |marker| == 32 && |digest| == 16 && |tail| == 16
    requires Apply(content, Substitution(marker, KeyPayload(Some(digest), tail), failure)).Success?
    ensures var r := Apply(content, Substitution(marker, KeyPayload(Some(digest), tail), failure)).value;
            var i := FindFirst(content, marker).value;
            && |r| == |content|
            && r[i..i + 32] == digest + tail
            && forall k :: 0 <= k < |content| && !(i <= k < i + 32) ==> r[k] == content[k]
  {
    ReplaceSameLength(content, marker, digest + tail);
  }

  /** The demo substitution, which only a non-demo build performs. */
  function DemoSubstitution(rnd: Entropy): Substitution
  {
    Substitution(DemoMarker, Some(rnd.demoBytes), DemoMarkerNotFound)
  }

  function Substitutions(f: FactoryItem, signature: Option<seq<byte>>, rnd: Entropy, demo: bool): seq<Substitution>
  {
    KeySubstitutions(f, signature, rnd) + (if demo then [] else [DemoSubstitution(rnd)])
  }

  /** The errors of the five substitutions, in the order they run. */
  const MarkerErrors: seq<BuildError> :=
    [EvidenceKeyMarkerNotFound, ConfigKeyMarkerNotFound, SignatureMarkerNotFound, AgentIdMarkerNotFound, DemoMarkerNotFound]

  /**
   * The in-memory patch of `patch`: the template bytes with all five markers
   * substituted (four when `demo` is set), or the error of the first one that failed.
   */
  function PatchContent(content: seq<byte>, f: FactoryItem, signature: Option<seq<byte>>, rnd: Entropy, demo: bool)
    : (r: Result<seq<byte>, BuildError>)
    ensures r.Failure? ==> r.error in MarkerErrors
    ensures demo && r.Failure? ==> r.error != DemoMarkerNotFound
  {
    var subs := Substitutions(f, signature, rnd, demo);
    var r := ApplyAll(content, subs);
    if r.Failure? then
      ApplyAllFailsAtFirst(content, subs);
      r
    else
      r
  }

  /** Each substitution raises its own marker's error: the k-th runs k-th. */
  lemma SubstitutionOrder(f: FactoryItem, signature: Option<seq<byte>>, rnd: Entropy, demo: bool)
    ensures var subs := Substitutions(f, signature, rnd, demo);
            && |subs| == (if demo then 4 else 5)
            && forall k :: 0 <= k < |subs| ==> subs[k].failure == MarkerErrors[k]
  {
  }

  /**
   * Patching fails with the k-th marker's error exactly when the first k
   * substitutions pass and the k-th does not: errors name the failing marker,
   * and a failure stops every later substitution.
   */
  lemma PatchFailsAtFirstFailingMarker(content: seq<byte>, f: FactoryItem, signature: Option<seq<byte>>,
                                       rnd: Entropy, demo: bool, k: nat)
    requires k < |Substitutions(f, signature, rnd, demo)|
    ensures var subs := Substitutions(f, signature, rnd, demo);
            PatchContent(content, f, signature, rnd, demo) == Failure(MarkerErrors[k]) <==>
              ApplyAll(content, subs[..k]).Success? && Apply(ApplyAll(content, subs[..k]).value, subs[k]).Failure?
  {
    var subs := Substitutions(f, signature, rnd, demo);
    SubstitutionOrder(f, signature, rnd, demo);
    FailsExactlyAtStep(content, subs, k);
  }

  /** The first substitution: the evidence key error means a nil log key or no evidence marker in the template. */
  lemma EvidenceKeyError(content: seq<byte>, f: FactoryItem, signature: Option<seq<byte>>, rnd: Entropy, demo: bool)
    ensures PatchContent(content, f, signature, rnd, demo) == Failure(EvidenceKeyMarkerNotFound) <==>
              f.logKeyDigest.None? || !Contains(content, EvidenceKeyMarker)
  {
    PatchFailsAtFirstFailingMarker(content, f, signature, rnd, demo, 0);
    assert Substitutions(f, signature, rnd, demo)[..0] == [];
  }

  /**
   * The Agent ID payload exists exactly when the ident contains `RCS_`, and is
   * as long as the ident; an ident that starts with `RCS_` keeps everything
   * after it and begins with the hex digits instead.
   */
  lemma AgentIdPayload(ident: seq<byte>, rnd: Entropy)
    requires WellFormedEntropy(rnd)
    ensures AgentId(ident, rnd.identHex).Some? <==> Contains(ident, IdentPrefix)
    ensures AgentId(ident, rnd.identHex).Some? ==> |AgentId(ident, rnd.identHex).value| == |ident|
    ensures |ident| >= 4 && ident[..4] == IdentPrefix ==>
              && AgentId(ident, rnd.identHex) == Some(rnd.identHex + ident[4..])
              && !OccursAt(AgentId(ident, rnd.identHex).value, IdentPrefix, 0)
  {
    if |ident| >= 4 && ident[..4] == IdentPrefix {
      ReplacePrefix(ident, IdentPrefix, rnd.identHex);
      var id := AgentId(ident, rnd.identHex).value;
      assert id[0] == rnd.identHex[0];
      assert IsHexDigit(rnd.identHex[0]);
      assert IdentPrefix[0] == 'R' as int as byte;
      assert id[..4][0] != IdentPrefix[0];
      assert id[0..0 + |IdentPrefix|] != IdentPrefix;
    }
  }

  /**
   * With digests and random values of the sizes an actual run supplies, every
   * payload but the Agent ID's replaces its marker byte for byte.
   */
  lemma KeyPayloadsExact(f: FactoryItem, signature: Option<seq<byte>>, rnd: Entropy, demo: bool)
    requires WellFormedEntropy(rnd) && WellFormedSecrets(f, signature)
    ensures var subs := Substitutions(f, signature, rnd, demo);
            && |subs| >= 4
            && subs[3].payload == AgentId(f.ident, rnd.identHex)
            && subs[3].marker == AgentIdMarker
            && forall j :: 0 <= j < |subs| && j != 3 ==> Exact(subs[j])
  {
    var ks := KeySubstitutions(f, signature, rnd);
    var subs := Substitutions(f, signature, rnd, demo);
    assert |EvidenceKeyMarker| == |ConfigKeyMarker| == |SignatureMarker| == 32;
    assert |DemoMarker| == 24;
    assert Exact(ks[0]) && Exact(ks[1]) && Exact(ks[2]);
    assert Exact(DemoSubstitution(rnd));
    forall j | 0 <= j < |subs| && j != 3
      ensures Exact(subs[j])
    {
      if j < 4 {
        assert subs[j] == ks[j];
      } else {
        assert subs[j] == DemoSubstitution(rnd);
      }
    }
  }

  /**
   * A successful patch changes the template's length by the ident's excess
   * over the 14-byte Agent ID marker, so the layout is preserved exactly when
   * the ident is 14 bytes long, which the program does not check.
   */
  lemma PatchLength(content: seq<byte>, f: FactoryItem, signature: Option<seq<byte>>, rnd: Entropy, demo: bool)
    requires WellFormedEntropy(rnd) && WellFormedSecrets(f, signature)
    requires PatchContent(content, f, signature, rnd, demo).Success?
    ensures |PatchContent(content, f, signature, rnd, demo).value| == |content| + |f.ident| - 14
  {
    var subs := Substitutions(f, signature, rnd, demo);
    ApplyAllLength(content, subs);
    ApplyAllSuccessPayloads(content, subs);
    AgentIdPayload(f.ident, rnd);
    KeyPayloadsExact(f, signature, rnd, demo);
    assert subs[3].payload.Some?;
    GrowthExceptOne(subs, 3);
  }

  /**
   * With a 14-byte ident, a successful patch keeps the template's length and
   * every byte outside the marker regions it overwrote.
   */
  lemma PatchFrame(content: seq<byte>, f: FactoryItem, signature: Option<seq<byte>>, rnd: Entropy, demo: bool)
    requires WellFormedEntropy(rnd) && WellFormedSecrets(f, signature) && |f.ident| == 14
    requires PatchContent(content, f, signature, rnd, demo).Success?
    ensures var r := PatchContent(content, f, signature, rnd, demo).value;
            && |r| == |content|
            && forall k :: 0 <= k < |content| && Untouched(content, Substitutions(f, signature, rnd, demo), k) ==>
                             r[k] == content[k]
  {
    var subs := Substitutions(f, signature, rnd, demo);
    AgentIdPayload(f.ident, rnd);
    KeyPayloadsExact(f, signature, rnd, demo);
    assert Exact(subs[3]);
    ApplyAllFrame(content, subs);
  }

  /**
   * The demo flag: a demo build runs only the four key substitutions, so the
   * demo marker can neither fail nor be overwritten; any other build then
   * overwrites the first demo marker with the 24 random bytes, keeping every
   * other byte, and fails with the demo error when there is none.
   */
  lemma DemoFlag(content: seq<byte>, f: FactoryItem, signature: Option<seq<byte>>, rnd: Entropy, demo: bool)
    requires WellFormedEntropy(rnd)
    ensures var keys := ApplyAll(content, KeySubstitutions(f, signature, rnd));
            var r := PatchContent(content, f, signature, rnd, demo);
            && (demo || keys.Failure? ==> r == keys)
            && (!demo && keys.Success? ==>
                  && (r.Success? <==> Contains(keys.value, DemoMarker))
                  && (r.Success? ==>
                        var i := FindFirst(keys.value, DemoMarker).value;
                        && |r.value| == |keys.value|
                        && r.value[i..i + 24] == rnd.demoBytes
                        && forall k :: 0 <= k < |keys.value| && !(i <= k < i + 24) ==> r.value[k] == keys.value[k]))
  {
    var ks := KeySubstitutions(f, signature, rnd);
    var tail: seq<Substitution> := if demo then [] else [DemoSubstitution(rnd)];
    ApplyAllAppend(content, ks, tail);
    var keys := ApplyAll(content, ks);
    if demo {
      if keys.Success? {
        assert ApplyAll(keys.value, tail) == keys;
      }
    } else if keys.Success? {
      assert tail[1..] == [];
      if Contains(keys.value, DemoMarker) {
        ReplaceSameLength(keys.value, DemoMarker, rnd.demoBytes);
      }
    }
  }
}
