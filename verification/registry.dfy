/**
 * The builder registry: a map from platform key to the builder class that
 * implements that platform, filled once by registering every discovered class.
 */
module Registry {
  import opened Wrappers
  import opened Sequences

  /**
   * A builder class: its constant name (`BuildWindows`) and the platform name
   * its constructor stores in `@platform`, which selects the template to load.
   */
  datatype BuilderClass = BuilderClass(name: string, platform: string)

  type Builders = map<string, BuilderClass>

  /** ASCII `downcase` of one character. */
  function LowerChar(c: char): char
  {
    if 'A' <= c <= 'Z' then (c as int + 32) as char else c
  }

  /** ASCII `downcase` of a string. */
  function Lower(s: string): (r: string)
    ensures |r| == |s|
    ensures forall i :: 0 <= i < |s| ==> r[i] == LowerChar(s[i])
  {
    seq(|s|, i requires 0 <= i < |s| => LowerChar(s[i]))
  }

  /** The names `register` accepts: those starting with `Build`, except `Build` itself. */
  predicate IsBuilderName(name: string)
  {
    |name| >= 5 && name[..5] == "Build" && name != "Build"
  }

  /**
   * The registry key of a builder class: the downcased name with its first
   * `build` removed. As the name starts with `Build`, that occurrence is the
   * prefix, so the key is the downcased remainder of the name.
   */
  function PlatformKey(name: string): (key: string)
    requires IsBuilderName(name)
    ensures key == Lower(name[5..])
    ensures |key| == |name| - 5 > 0
  {
    var low := Lower(name);
    assert low[..5] == "build" by {
      forall i | 0 <= i < 5 ensures low[i] == "build"[i] {
        assert name[i] == "Build"[i];
      }
    }
    ReplacePrefix(low, "build", "");
    assert low[5..] == Lower(name[5..]);
    ReplaceFirst(low, "build", "").value
  }

  /** Concrete instance: `BuildWindows` registers under `windows`. */
  lemma WindowsKey()
    ensures IsBuilderName("BuildWindows")
    ensures PlatformKey("BuildWindows") == "windows"
  {
    var name := "BuildWindows";
    assert name[..5] == "Build";
    var tail := name[5..];
    assert tail == "Windows";
    var l := Lower(tail);
    assert l[0] == LowerChar('W') == 'w';
    assert l[1..] == tail[1..] by {
      forall i | 1 <= i < |tail| ensures l[i] == tail[i] {
        assert 'a' <= tail[i] <= 'z';
      }
    }
    assert l == "windows";
  }

  /**
   * `Build.register(klass)`: a class whose name is a builder name is entered
   * under its platform key (replacing any class already there); any other
   * class leaves the registry as it was.
   */
  function Register(reg: Builders, cls: BuilderClass): (r: Builders)
    ensures IsBuilderName(cls.name) ==> r.Keys == reg.Keys + {PlatformKey(cls.name)}
    ensures IsBuilderName(cls.name) ==> r[PlatformKey(cls.name)] == cls
    ensures forall p :: p in reg && (!IsBuilderName(cls.name) || p != PlatformKey(cls.name)) ==> p in r && r[p] == reg[p]
    ensures !IsBuilderName(cls.name) ==> r == reg
  {
    if IsBuilderName(cls.name) then reg[PlatformKey(cls.name) := cls] else reg
  }

  /** Registration of every discovered class, in discovery order. */
  function RegisterAll(reg: Builders, classes: seq<BuilderClass>): Builders
    decreases |classes|
  {
    if |classes| == 0 then reg else RegisterAll(Register(reg, classes[0]), classes[1..])
  }

  /** `cls` would be registered under `p`. */
  predicate RegistersAs(cls: BuilderClass, p: string)
  {
    IsBuilderName(cls.name) && PlatformKey(cls.name) == p
  }

  /** The last class of `classes` that registers under `p`, if any. */
  function LastFor(classes: seq<BuilderClass>, p: string): (r: Option<BuilderClass>)
    ensures r.Some? ==> r.value in classes && RegistersAs(r.value, p)
    ensures r.None? <==> forall i :: 0 <= i < |classes| ==> !RegistersAs(classes[i], p)
    ensures r.Some? ==> exists i :: 0 <= i < |classes| && classes[i] == r.value &&
                                    forall j :: i < j < |classes| ==> !RegistersAs(classes[j], p)
    decreases |classes|
  {
    if |classes| == 0 then None
    else match LastFor(classes[1..], p)
      case Some(c) =>
        var i :| 0 <= i < |classes[1..]| && classes[1..][i] == c &&
                 forall j :: i < j < |classes[1..]| ==> !RegistersAs(classes[1..][j], p);
        assert classes[i + 1] == c;
        assert forall j :: i + 1 < j < |classes| ==> classes[j] == classes[1..][j - 1];
        Some(c)
      case None =>
        if RegistersAs(classes[0], p) then Some(classes[0])
        else
          assert forall i :: 1 <= i < |classes| ==> classes[i] == classes[1..][i - 1];
          None
  }

  /**
   * After registering `classes`, a platform key is bound to the last class
   * that registers under it; a key no class registers under keeps its earlier binding.
   */
  lemma {:induction false} RegisterAllLookup(reg: Builders, classes: seq<BuilderClass>, p: string)
    ensures var r := RegisterAll(reg, classes);
            match LastFor(classes, p)
            case Some(c) => p in r && r[p] == c
            case None => (p in r <==> p in reg) && (p in reg ==> r[p] == reg[p])
    decreases |classes|
  {
    if |classes| > 0 {
      RegisterAllLookup(Register(reg, classes[0]), classes[1..], p);
    }
  }

  /** The keys of a registry built from nothing are exactly the keys of the builder names listed. */
  lemma RegisteredKeys(classes: seq<BuilderClass>, p: string)
    ensures p in RegisterAll(map[], classes) <==> exists i :: 0 <= i < |classes| && RegistersAs(classes[i], p)
  {
    RegisterAllLookup(map[], classes, p);
  }
}
