/**
 * The name index: the list of entry names kept in ~/.totp.json beside the
 * keyring, which cannot enumerate its own entries.
 */
module NameIndex {
  import opened Common
  import opened Order

  /** What the index file holds, as readIndex sees it. */
  datatype IndexFile =
    | Missing                     // os.ReadFile reports that the file does not exist
    | Unreadable                  // no home directory, another read error, or JSON that does not parse
    | Stored(names: seq<string>)  // a parsed {"names": [...]}, in whatever order and with whatever repeats it holds

  /**
   * What os.WriteFile does on one call: it succeeds, or it fails and leaves the
   * file in some state. It writes in place, so a failed write may have
   * truncated the old file: nothing about leftBehind is promised.
   */
  datatype WriteOutcome = Written | WriteFailed(leftBehind: IndexFile)

  /** The index file after an index operation, and the error it returned. */
  datatype Step = Step(file: IndexFile, err: Option<Error>)

  /** readIndex: a missing file is an empty index, not an error. */
  function ReadIndex(f: IndexFile): (r: Result<seq<string>>)
    ensures f.Missing? ==> r == Ok([])
    ensures r.Err? <==> f.Unreadable?
    ensures r.Err? ==> r.error == IndexUnreadable
    ensures f.Stored? ==> r == Ok(f.names)
  {
    match f
    case Missing => Ok([])
    case Unreadable => Err(IndexUnreadable)
    case Stored(names) => Ok(names)
  }

  /** writeIndex: a successful write saves the same names, ascending. */
  function Persist(names: seq<string>, w: WriteOutcome): (r: Step)
    ensures r.err == None <==> w.Written?
    ensures w.Written? ==> r.file.Stored? && Sorted(r.file.names) && multiset(r.file.names) == multiset(names)
    ensures w.WriteFailed? ==> r == Step(w.leftBehind, Some(IndexWriteFailed))
  {
    match w
    case Written => Step(Stored(SortNames(names)), None)
    case WriteFailed(left) => Step(left, Some(IndexWriteFailed))
  }

  /** The loop of removeNameFromIndex: every occurrence of name goes. */
  function Without(names: seq<string>, name: string): (r: seq<string>)
    ensures name !in r
    ensures name !in names ==> r == names
  {
    if names == [] then []
    else
      var last := names[|names| - 1];
      assert names == names[..|names| - 1] + [last];
      Without(names[..|names| - 1], name) + (if last == name then [] else [last])
  }

  /** Every name other than the one removed keeps its count. */
  lemma {:induction false} WithoutCounts(names: seq<string>, name: string)
    ensures forall x :: x != name ==> multiset(Without(names, name))[x] == multiset(names)[x]
  {
    if names != [] {
      var init, last := names[..|names| - 1], names[|names| - 1];
      assert names == init + [last];
      WithoutCounts(init, name);
    }
  }

  /** One more name at the end survives exactly when it is not the one removed. */
  lemma WithoutSnoc(names: seq<string>, x: string, name: string)
    ensures Without(names + [x], name) == Without(names, name) + (if x == name then [] else [x])
  {
    assert (names + [x])[..|names|] == names;
  }

  /**
   * addNameToIndex: a name already indexed is left alone and nothing is
   * written; an absent one is added and the index saved.
   */
  function AddName(before: IndexFile, name: string, w: WriteOutcome): (r: Step)
    ensures before.Unreadable? ==> r == Step(before, Some(IndexUnreadable))
    ensures before.Stored? && name in before.names ==> r == Step(before, None)
    ensures r.err == None ==> r.file.Stored? && name in r.file.names
    ensures !before.Unreadable? && name !in ReadIndex(before).value && w.Written? ==>
              && r.err == None
              && Sorted(r.file.names)
              && multiset(r.file.names) == multiset(ReadIndex(before).value) + multiset{name}
    ensures !before.Unreadable? && name !in ReadIndex(before).value && w.WriteFailed? ==>
              r == Step(w.leftBehind, Some(IndexWriteFailed))
    ensures r.err == Some(IndexWriteFailed) ==> w.WriteFailed? && r.file == w.leftBehind
  {
    match ReadIndex(before)
    case Err(e) => Step(before, Some(e))
    case Ok(names) =>
      if name in names then Step(before, None)
      else
        var r := Persist(names + [name], w);
        assert r.err == None ==> name in multiset(r.file.names);
        r
  }

  /**
   * removeNameFromIndex: afterwards no occurrence of name is left, every
   * other name keeps its count, and the index is saved ascending.
   */
  function RemoveName(before: IndexFile, name: string, w: WriteOutcome): (r: Step)
    ensures before.Unreadable? ==> r == Step(before, Some(IndexUnreadable))
    ensures r.err == None ==> r.file.Stored? && name !in r.file.names && Sorted(r.file.names)
    ensures !before.Unreadable? && w.Written? ==>
              && r.err == None
              && forall x :: x != name ==> multiset(r.file.names)[x] == multiset(ReadIndex(before).value)[x]
    ensures !before.Unreadable? && name !in ReadIndex(before).value && w.Written? ==>
              r.file == Stored(SortNames(ReadIndex(before).value))
    ensures !before.Unreadable? && w.WriteFailed? ==> r == Step(w.leftBehind, Some(IndexWriteFailed))
    ensures r.err == Some(IndexWriteFailed) ==> w.WriteFailed? && r.file == w.leftBehind
  {
    match ReadIndex(before)
    case Err(e) => Step(before, Some(e))
    case Ok(names) =>
      WithoutCounts(names, name);
      var r := Persist(Without(names, name), w);
      assert r.err == None ==> name !in multiset(r.file.names);
      r
  }

  /** Adding a name that an earlier add indexed finds it and writes nothing. */
  lemma AddNameIdempotent(f: IndexFile, name: string, w1: WriteOutcome, w2: WriteOutcome)
    requires AddName(f, name, w1).err == None
    ensures AddName(AddName(f, name, w1).file, name, w2) == Step(AddName(f, name, w1).file, None)
  {
  }

  /** Removing a name again after a successful removal saves the same index. */
  lemma RemoveNameIdempotent(f: IndexFile, name: string, w1: WriteOutcome, w2: WriteOutcome)
    requires RemoveName(f, name, w1).err == None
    requires w2.Written?
    ensures RemoveName(RemoveName(f, name, w1).file, name, w2) == Step(RemoveName(f, name, w1).file, None)
  {
    var names := RemoveName(f, name, w1).file.names;
    SortOfSorted(names);
  }

  /** Adding a name the index lacked and removing it again restores the index, sorted. */
  lemma AddThenRemove(f: IndexFile, name: string)
    requires !f.Unreadable? && name !in ReadIndex(f).value
    ensures RemoveName(AddName(f, name, Written).file, name, Written)
            == Step(Stored(SortNames(ReadIndex(f).value)), None)
  {
    var names := ReadIndex(f).value;
    var added := AddName(f, name, Written).file.names;
    var back := Without(added, name);
    WithoutCounts(added, name);
    assert multiset(back) == multiset(names) by {
      forall x ensures multiset(back)[x] == multiset(names)[x] {
        if x == name {
          assert name !in multiset(names);
        }
      }
    }
    SortDeterministic(back, names);
  }

  /** The filter loop of removeNameFromIndex, which keeps every name but the one removed, in order. */
  method FilterOut(names: seq<string>, name: string) returns (out: seq<string>)
    ensures out == Without(names, name)
  {
    out := [];
    var i := 0;
    while i < |names|
      invariant 0 <= i <= |names|
      invariant out == Without(names[..i], name)
    {
      WithoutSnoc(names[..i], names[i], name);
      assert names[..i + 1] == names[..i] + [names[i]];
      if names[i] != name {
        out := out + [names[i]];
      }
      i := i + 1;
    }
    assert names[..i] == names;
  }

  /** The index file, held as the single piece of state that readIndex and writeIndex share. */
  class IndexStore {
    var file: IndexFile

    constructor (file: IndexFile)
      ensures this.file == file
    {
      this.file := file;
    }

    /**
     * writeIndex. sort.Strings sorts the caller's slice in place before the
     * file is written, so the caller sees its names sorted (returned as
     * sorted) whether or not the write succeeds.
     */
    method WriteIndex(names: seq<string>, w: WriteOutcome) returns (sorted: seq<string>, err: Option<Error>)
      modifies this
      ensures Sorted(sorted) && multiset(sorted) == multiset(names)
      ensures sorted == SortNames(names)
      ensures Step(file, err) == Persist(names, w)
    {
      sorted := SortNames(names);
      match w {
        case Written =>
          file := Stored(sorted);
          err := None;
        case WriteFailed(left) =>
          file := left;
          err := Some(IndexWriteFailed);
      }
    }

    /** addNameToIndex: scans the index for the name and appends it only when absent. */
    method AddNameToIndex(name: string, w: WriteOutcome) returns (err: Option<Error>)
      modifies this
      ensures Step(file, err) == AddName(old(file), name, w)
    {
      var read := ReadIndex(file);
      if read.Err? {
        return Some(read.error);
      }
      var names := read.value;
      var i := 0;
      while i < |names|
        invariant 0 <= i <= |names|
        invariant name !in names[..i]
      {
        if names[i] == name {
          return None;
        }
        assert names[..i + 1] == names[..i] + [names[i]];
        i := i + 1;
      }
      assert names[..i] == names;
      var _, e := WriteIndex(names + [name], w);
      err := e;
    }

    /** removeNameFromIndex: filters every occurrence of the name out, then saves. */
    method RemoveNameFromIndex(name: string, w: WriteOutcome) returns (err: Option<Error>)
      modifies this
      ensures Step(file, err) == RemoveName(old(file), name, w)
    {
      var read := ReadIndex(file);
      if read.Err? {
        return Some(read.error);
      }
      var out := FilterOut(read.value, name);
      var _, e := WriteIndex(out, w);
      err := e;
    }
  }
}
