/**
 * The archive extractor of `unpack`: every entry of the template archive is
 * listed as a build output, in archive order, but its bytes are written into
 * the workspace only when no file of that name is there yet.
 */
module Extractor {
  import opened Wrappers

  /** One archive entry: its path relative to the workspace and its bytes. */
  datatype Entry = Entry(name: string, data: seq<byte>)

  type Archive = seq<Entry>

  /** The files of one workspace directory, by relative path. */
  type Files = map<string, seq<byte>>

  /** The entry names, in archive order. */
  function Names(entries: Archive): (names: seq<string>)
    ensures |names| == |entries|
    ensures forall i :: 0 <= i < |entries| ==> names[i] == entries[i].name
  {
    seq(|entries|, i requires 0 <= i < |entries| => entries[i].name)
  }

  /** The bytes of the first entry named `p`, if any. */
  function FirstData(entries: Archive, p: string): (r: Option<seq<byte>>)
    ensures r.None? <==> p !in Names(entries)
    decreases |entries|
  {
    if |entries| == 0 then None
    else if entries[0].name == p then Some(entries[0].data)
    else
      assert Names(entries) == [entries[0].name] + Names(entries[1..]);
      FirstData(entries[1..], p)
  }

  /** The bytes found are those of an entry named `p` with no entry of that name before it. */
  lemma {:induction false} FirstDataIsFirst(entries: Archive, p: string)
    ensures var r := FirstData(entries, p);
            r.Some? ==> exists i :: 0 <= i < |entries| && entries[i].name == p && r.value == entries[i].data &&
                                    forall j :: 0 <= j < i ==> entries[j].name != p
    decreases |entries|
  {
    if |entries| > 0 {
      if entries[0].name == p {
        assert FirstData(entries, p) == Some(entries[0].data);
      } else {
        var rest := entries[1..];
        FirstDataIsFirst(rest, p);
        var r := FirstData(rest, p);
        assert FirstData(entries, p) == r;
        if r.Some? {
          var i :| 0 <= i < |rest| && rest[i].name == p && r.value == rest[i].data &&
                   forall j :: 0 <= j < i ==> rest[j].name != p;
          FirstAfterHead(entries, p, i);
        }
      }
    }
  }

  /** A first match at `i` in the tail, after a head of another name, is a first match at `i + 1`. */
  lemma FirstAfterHead(entries: Archive, p: string, i: nat)
    requires 0 < |entries| && entries[0].name != p
    requires i < |entries| - 1 && entries[1..][i].name == p
    requires forall j :: 0 <= j < i ==> entries[1..][j].name != p
    ensures entries[i + 1] == entries[1..][i]
    ensures forall j :: 0 <= j < i + 1 ==> entries[j].name != p
  {
    assert forall j :: 1 <= j < i + 1 ==> entries[j] == entries[1..][j - 1];
  }

  /**
   * The workspace after the entry loop: each entry in turn is written unless
   * a file of its name is already there.
   */
  function Extracted(files: Files, entries: Archive): Files
    decreases |entries|
  {
    if |entries| == 0 then files
    else
      var e := entries[0];
      Extracted(if e.name in files then files else files[e.name := e.data], entries[1..])
  }

  /**
   * What extraction leaves: the files that were there, unchanged, and one new
   * file per entry name not yet present, holding the first such entry's bytes.
   */
  lemma {:induction false} ExtractedContents(files: Files, entries: Archive)
    ensures var r := Extracted(files, entries);
            && r.Keys == files.Keys + (set e | e in entries :: e.name)
            && (forall p :: p in files ==> r[p] == files[p])
            && (forall p :: p in r && p !in files ==> FirstData(entries, p) == Some(r[p]))
    decreases |entries|
  {
    if |entries| > 0 {
      var e := entries[0];
      var next := if e.name in files then files else files[e.name := e.data];
      ExtractedContents(next, entries[1..]);
      assert forall x :: x in entries <==> x == e || x in entries[1..];
    }
  }

  /**
   * Extracting into an empty directory produces a file exactly for each entry
   * name, holding the bytes of the first entry of that name.
   */
  lemma ExtractFresh(entries: Archive, p: string)
    ensures p in Extracted(map[], entries) <==> p in Names(entries)
    ensures p in Extracted(map[], entries) ==> Extracted(map[], entries)[p] == FirstData(entries, p).value
  {
    ExtractedContents(map[], entries);
    if p in Names(entries) {
      var i :| 0 <= i < |entries| && Names(entries)[i] == p;
      assert entries[i] in entries;
    }
  }

  /** Extraction writes nothing when every entry's path is already present. */
  lemma {:induction false} ExtractPresentIsNoop(files: Files, entries: Archive)
    requires forall e :: e in entries ==> e.name in files
    ensures Extracted(files, entries) == files
    decreases |entries|
  {
    if |entries| > 0 {
      assert entries[0] in entries;
      assert forall e :: e in entries[1..] ==> e in entries;
      ExtractPresentIsNoop(files, entries[1..]);
    }
  }

  /** Re-extracting the same archive into the populated workspace changes nothing. */
  lemma ExtractIdempotent(files: Files, entries: Archive)
    ensures Extracted(Extracted(files, entries), entries) == Extracted(files, entries)
  {
    ExtractedContents(files, entries);
    ExtractPresentIsNoop(Extracted(files, entries), entries);
  }

  /** One step of the entry loop: handling entry `i` then the rest is handling the rest from entry `i`. */
  lemma ExtractStep(files: Files, entries: Archive, i: nat)
    requires i < |entries|
    ensures var e := entries[i];
            Extracted(files, entries[i..]) ==
            Extracted(if e.name in files then files else files[e.name := e.data], entries[i + 1..])
  {
    var rest := entries[i..];
    assert rest[0] == entries[i] && rest[1..] == entries[i + 1..];
  }

  lemma NamesStep(entries: Archive, i: nat)
    requires i < |entries|
    ensures Names(entries[..i + 1]) == Names(entries[..i]) + [entries[i].name]
  {
    assert entries[..i + 1] == entries[..i] + [entries[i]];
  }

  /**
   * The entry loop of `unpack`: writes each entry unless its path exists and
   * appends every entry's name to the outputs, skipped or not.
   */
  method UnpackEntries(files: Files, outputs: seq<string>, entries: Archive)
    returns (files': Files, outputs': seq<string>)
    ensures outputs' == outputs + Names(entries)
    ensures |outputs'| == |outputs| + |entries|
    ensures files' == Extracted(files, entries)
  {
    files', outputs' := files, outputs;
    ghost var target := Extracted(files, entries);
    var i := 0;
    assert entries[i..] == entries;
    while i < |entries|
      invariant 0 <= i <= |entries|
      invariant outputs' == outputs + Names(entries[..i])
      invariant Extracted(files', entries[i..]) == target
    {
      var e := entries[i];
      ExtractStep(files', entries, i);
      NamesStep(entries, i);
      if e.name !in files' {
        files' := files'[e.name := e.data];
      }
      outputs' := outputs' + [e.name];
      i := i + 1;
    }
    assert entries[..i] == entries;
    assert entries[i..] == [];
  }
}
