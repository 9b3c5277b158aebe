/**
 * The entry manager: it keeps the keyring (which has only get, set and
 * delete) and the name index in step, without a transaction across them.
 */
module Entries {
  import opened Common
  import opened Order
  import opened Text
  import opened NameIndex

  /** What keyring.Set reports: success, ErrSetDataTooBig, or another error. */
  datatype SetOutcome = SetAccepted | SetTooBig | SetRejected

  /** What keyring.Get reports for one name. */
  datatype Probe = Found(secret: string) | NotFound | Failed

  /** One reply read from the terminal: a line, or a read error. */
  datatype Reply = Line(text: string) | ReadError

  /** How the search for an unused name ends. */
  datatype NameChoice =
    | Chosen(name: string)    // a name the keyring does not hold
    | Aborted(error: Error)   // the keyring failed while probing
    | OutOfInput              // every reply was used up and the last candidate is still taken

  /** The index file after listItems, and what listItems returned. */
  datatype Listing = Listing(file: IndexFile, result: Result<seq<string>>)

  /** The loop of listItems: the indexed names the keyring still holds, with their repeats. */
  function Kept(names: seq<string>, present: set<string>): (r: seq<string>)
    ensures |r| <= |names|
  {
    if names == [] then []
    else
      var last := names[|names| - 1];
      Kept(names[..|names| - 1], present) + (if last in present then [last] else [])
  }

  /** A name survives the filter as often as it is indexed when the keyring holds it, and never otherwise. */
  lemma {:induction false} KeptCounts(names: seq<string>, present: set<string>)
    ensures forall x :: multiset(Kept(names, present))[x] == if x in present then multiset(names)[x] else 0
  {
    if names != [] {
      var init, last := names[..|names| - 1], names[|names| - 1];
      assert names == init + [last];
      KeptCounts(init, present);
    }
  }

  /** One more name at the end is kept exactly when it is present. */
  lemma KeptSnoc(names: seq<string>, x: string, present: set<string>)
    ensures Kept(names + [x], present) == Kept(names, present) + (if x in present then [x] else [])
  {
    assert (names + [x])[..|names|] == names;
  }

  /** Names that are all present survive the filter unchanged. */
  lemma {:induction false} KeptAllPresent(names: seq<string>, present: set<string>)
    requires forall x :: x in names ==> x in present
    ensures Kept(names, present) == names
  {
    if names != [] {
      var init := names[..|names| - 1];
      assert names == init + [names[|names| - 1]];
      KeptAllPresent(init, present);
    }
  }

  /**
   * listItems on the index file before, with present the names the keyring
   * holds and down the names it fails on: a failure aborts with nothing
   * written; otherwise the surviving names are saved and returned, sorted.
   */
  function ListOutcome(before: IndexFile, present: set<string>, down: set<string>, w: WriteOutcome): (r: Listing)
    ensures before.Unreadable? ==> r == Listing(before, Err(IndexUnreadable))
    ensures !before.Unreadable? && (exists n :: n in ReadIndex(before).value && n in down) ==>
              r == Listing(before, Err(KeyringFailure))
    ensures !before.Unreadable? && (forall n :: n in ReadIndex(before).value ==> n !in down) && w.Written? ==>
              r.result.Ok?
    ensures r.result.Ok? ==> !before.Unreadable? && forall n :: n in ReadIndex(before).value ==> n !in down
    ensures r.result.Ok? ==> Sorted(r.result.value) && r.file == Stored(r.result.value)
    ensures r.result.Ok? ==>
              forall x :: multiset(r.result.value)[x] == if x in present then multiset(ReadIndex(before).value)[x] else 0
    ensures !before.Unreadable? && (forall n :: n in ReadIndex(before).value ==> n !in down) && w.WriteFailed? ==>
              r == Listing(w.leftBehind, Err(IndexWriteFailed))
    ensures r.result == Err(IndexWriteFailed) ==> w.WriteFailed? && r.file == w.leftBehind
  {
    match ReadIndex(before)
    case Err(e) => Listing(before, Err(e))
    case Ok(names) =>
      if exists n :: n in names && n in down then Listing(before, Err(KeyringFailure))
      else
        var kept := Kept(names, present);
        KeptCounts(names, present);
        var saved := Persist(kept, w);
        if saved.err == None then Listing(saved.file, Ok(SortNames(kept)))
        else Listing(saved.file, Err(IndexWriteFailed))
  }

  /** Every name a successful listing returns is held by the keyring and was probed without failure. */
  lemma ListedNamesResolve(before: IndexFile, present: set<string>, down: set<string>, w: WriteOutcome)
    requires ListOutcome(before, present, down, w).result.Ok?
    ensures forall x :: x in ListOutcome(before, present, down, w).result.value ==> x in present && x !in down
  {
    var names := ReadIndex(before).value;
    var listed := ListOutcome(before, present, down, w).result.value;
    forall x | x in listed ensures x in present && x !in down {
      assert x in multiset(listed);
      assert x in multiset(names);
    }
  }

  /** Listing an index that is sorted and fully resolvable saves and returns it unchanged. */
  lemma ListResolvedIndex(names: seq<string>, present: set<string>, down: set<string>)
    requires Sorted(names)
    requires forall x :: x in names ==> x in present && x !in down
    ensures ListOutcome(Stored(names), present, down, Written) == Listing(Stored(names), Ok(names))
  {
    KeptAllPresent(names, present);
    SortOfSorted(names);
  }

  /**
   * Listing heals the index: listing again right after a successful listing
   * (with the same keyring) returns the same names and saves the same index.
   */
  lemma ListHealed(before: IndexFile, present: set<string>, down: set<string>, w1: WriteOutcome, w2: WriteOutcome)
    requires ListOutcome(before, present, down, w1).result.Ok?
    requires w2.Written?
    ensures ListOutcome(ListOutcome(before, present, down, w1).file, present, down, w2)
            == ListOutcome(before, present, down, w1)
  {
    ListedNamesResolve(before, present, down, w1);
    ListResolvedIndex(ListOutcome(before, present, down, w1).result.value, present, down);
  }

  /**
   * The name search of promptNewName, one probe at a time: a failing probe
   * aborts, a free name is chosen, and a taken name is replaced by the next
   * reply's trimmed text (a blank one included; a read error keeps it).
   * Here taken is the keyring's contents.
   */
  function Search(taken: map<string, string>, name: string, replies: seq<Reply>, down: set<string>): (c: NameChoice)
    ensures c.Chosen? ==> c.name !in taken && c.name !in down
    ensures c.Chosen? && c.name != name ==>
              exists j :: 0 <= j < |replies| && replies[j].Line? && TrimSpace(replies[j].text) == c.name
    ensures c.Aborted? ==> c.error == KeyringFailure
    ensures c.Aborted? ==>
              name in down ||
              exists j :: 0 <= j < |replies| && replies[j].Line? && TrimSpace(replies[j].text) in down
    ensures c.OutOfInput? ==> name in taken && name !in down
    ensures c.OutOfInput? ==>
              forall j :: 0 <= j < |replies| && replies[j].Line? ==>
                TrimSpace(replies[j].text) in taken && TrimSpace(replies[j].text) !in down
    decreases |replies|
  {
    if name in down then Aborted(KeyringFailure)
    else if name !in taken then Chosen(name)
    else if replies == [] then OutOfInput
    else
      var next := if replies[0].Line? then TrimSpace(replies[0].text) else name;
      var c := Search(taken, next, replies[1..], down);
      assert forall j :: 1 <= j < |replies| ==> replies[j] == replies[1..][j - 1];
      c
  }

  /** Search as the blank-line check of promptNewName evidently intends: a blank reply keeps the name. */
  function SearchNonBlank(taken: map<string, string>, name: string, replies: seq<Reply>, down: set<string>): (c: NameChoice)
    ensures c.Chosen? ==> c.name !in taken && c.name !in down
    ensures c.Chosen? && c.name != name ==>
              c.name != [] &&
              exists j :: 0 <= j < |replies| && replies[j].Line? && TrimSpace(replies[j].text) == c.name
    ensures c.Aborted? ==> c.error == KeyringFailure
    ensures c.Aborted? ==>
              name in down ||
              exists j :: 0 <= j < |replies| && replies[j].Line? && TrimSpace(replies[j].text) in down
    ensures c.OutOfInput? ==> name in taken && name !in down
    ensures c.OutOfInput? ==>
              forall j :: 0 <= j < |replies| && replies[j].Line? && TrimSpace(replies[j].text) != [] ==>
                TrimSpace(replies[j].text) in taken && TrimSpace(replies[j].text) !in down
    decreases |replies|
  {
    if name in down then Aborted(KeyringFailure)
    else if name !in taken then Chosen(name)
    else if replies == [] then OutOfInput
    else
      var line := if replies[0].Line? then TrimSpace(replies[0].text) else [];
      var next := if line != [] then line else name;
      var c := SearchNonBlank(taken, next, replies[1..], down);
      assert forall j :: 1 <= j < |replies| ==> replies[j] == replies[1..][j - 1];
      c
  }

  class EntryManager {
    /** The keyring entries of the service "totp": name to secret. */
    var keyring: map<string, string>
    const index: IndexStore

    constructor (keyring: map<string, string>, index: IndexStore)
      ensures this.keyring == keyring && this.index == index
    {
      this.keyring := keyring;
      this.index := index;
    }

    /** keyring.Get, where down holds the names the backend fails on. */
    function Get(name: string, down: set<string>): (p: Probe)
      reads this
      ensures p.Failed? <==> name in down
      ensures p.Found? <==> name !in down && name in keyring
      ensures p.Found? ==> p.secret == keyring[name]
    {
      if name in down then Failed
      else if name in keyring then Found(keyring[name])
      else NotFound
    }

    /** getItem: a keyring lookup only; a missing entry is its own error. */
    function GetItem(name: string, down: set<string>): (r: Result<string>)
      reads this
      ensures r.Ok? <==> name in keyring && name !in down
      ensures r.Ok? ==> r.value == keyring[name]
      ensures r == Err(NameNotFound) <==> name !in keyring && name !in down
      ensures r == Err(KeyringFailure) <==> name in down
    {
      match Get(name, down)
      case Found(secret) => Ok(secret)
      case NotFound => Err(NameNotFound)
      case Failed => Err(KeyringFailure)
    }

    /** nameExists: asks the keyring only, never the index. */
    function NameExists(name: string, down: set<string>): (r: Result<bool>)
      reads this
      ensures r.Ok? <==> name !in down
      ensures r.Ok? ==> (r.value <==> name in keyring)
      ensures r.Err? ==> r.error == KeyringFailure
    {
      match Get(name, down)
      case Found(_) => Ok(true)
      case NotFound => Ok(false)
      case Failed => Err(KeyringFailure)
    }

    /**
     * addItem: the keyring first, the index second. A refused set returns
     * its error with both stores untouched; after success the keyring maps
     * name to secret and the name is indexed.
     */
    method AddItem(name: string, secret: string, stored: SetOutcome, w: WriteOutcome) returns (err: Option<Error>)
      modifies this, index
      ensures !stored.SetAccepted? ==> keyring == old(keyring) && index.file == old(index.file)
      ensures stored.SetTooBig? ==> err == Some(SecretTooLarge)
      ensures stored.SetRejected? ==> err == Some(KeyringFailure)
      ensures stored.SetAccepted? ==>
                keyring == old(keyring)[name := secret] && Step(index.file, err) == AddName(old(index.file), name, w)
      ensures err == None ==>
                name in keyring && keyring[name] == secret && index.file.Stored? && name in index.file.names
    {
      match stored {
        case SetTooBig =>
          return Some(SecretTooLarge);
        case SetRejected =>
          return Some(KeyringFailure);
        case SetAccepted =>
          keyring := keyring[name := secret];
          err := index.AddNameToIndex(name, w);
      }
    }

    /**
     * deleteItem: a keyring NotFound counts as success and the index is
     * cleared all the same; any other keyring error returns before the index
     * is read. After success the name is in neither store.
     */
    method DeleteItem(name: string, deleteFails: bool, w: WriteOutcome) returns (err: Option<Error>)
      modifies this, index
      ensures deleteFails ==>
                err == Some(KeyringFailure) && keyring == old(keyring) && index.file == old(index.file)
      ensures !deleteFails ==>
                keyring == old(keyring) - {name} && Step(index.file, err) == RemoveName(old(index.file), name, w)
      ensures err == None ==> name !in keyring && index.file.Stored? && name !in index.file.names
    {
      if deleteFails {
        return Some(KeyringFailure);
      }
      keyring := keyring - {name};
      err := index.RemoveNameFromIndex(name, w);
    }

    /**
     * listItems: drops the indexed names the keyring no longer holds, saves
     * the shrunk index, and returns it; the slice it returns is the one
     * writeIndex sorted.
     */
    method ListItems(down: set<string>, w: WriteOutcome) returns (r: Result<seq<string>>)
      modifies index
      ensures Listing(index.file, r) == ListOutcome(old(index.file), keyring.Keys, down, w)
      ensures r.Ok? ==> Sorted(r.value) && index.file == Stored(r.value)
    {
      var read := ReadIndex(index.file);
      if read.Err? {
        return Err(read.error);
      }
      var names := read.value;
      var kept: seq<string> := [];
      var i := 0;
      while i < |names|
        invariant 0 <= i <= |names|
        invariant kept == Kept(names[..i], keyring.Keys)
        invariant forall j :: 0 <= j < i ==> names[j] !in down
        invariant index.file == old(index.file)
      {
        var probe := Get(names[i], down);
        if probe.Failed? {
          assert names[i] in names && names[i] in down;
          return Err(KeyringFailure);
        }
        assert names[i] !in down;
        assert names[..i + 1] == names[..i] + [names[i]];
        KeptSnoc(names[..i], names[i], keyring.Keys);
        if probe.Found? {
          kept := kept + [names[i]];
        }
        i := i + 1;
      }
      assert names[..i] == names;
      assert !exists n :: n in names && n in down;
      var sorted, e := index.WriteIndex(kept, w);
      if e.Some? {
        return Err(e.value);
      }
      r := Ok(sorted);
    }

    /**
     * promptNewName: starting from initial, asks for another name (from
     * replies) for as long as the keyring holds the current one. Every line
     * read replaces the candidate with its trimmed text, a blank one
     * included; a failed read keeps the candidate. A name it returns is free
     * in the keyring, whatever the index says.
     */
    method PromptNewName(initial: string, replies: seq<Reply>, down: set<string>) returns (c: NameChoice)
      ensures c == Search(keyring, initial, replies, down)
      ensures c.Chosen? ==> NameExists(c.name, down) == Ok(false)
    {
      var name := initial;
      var i := 0;
      while true
        invariant 0 <= i <= |replies|
        invariant Search(keyring, name, replies[i..], down) == Search(keyring, initial, replies, down)
        decreases |replies| - i
      {
        var taken := NameExists(name, down);
        if taken.Err? {
          return Aborted(taken.error);
        }
        if !taken.value {
          return Chosen(name);
        }
        if i == |replies| {
          return OutOfInput;
        }
        var reply := replies[i];
        assert replies[i..][1..] == replies[i + 1..];
        i := i + 1;
        if reply.Line? {
          name := TrimSpace(reply.text);
        }
      }
    }

    /**
     * promptNewName as its blank-line check evidently intends: a blank reply
     * is skipped and the candidate kept, so the search never settles on an
     * empty name it was not started with.
     */
    method PromptNonBlankName(initial: string, replies: seq<Reply>, down: set<string>) returns (c: NameChoice)
      ensures c == SearchNonBlank(keyring, initial, replies, down)
      ensures c.Chosen? ==> NameExists(c.name, down) == Ok(false)
    {
      var name := initial;
      var i := 0;
      while true
        invariant 0 <= i <= |replies|
        invariant SearchNonBlank(keyring, name, replies[i..], down) == SearchNonBlank(keyring, initial, replies, down)
        decreases |replies| - i
      {
        var taken := NameExists(name, down);
        if taken.Err? {
          return Aborted(taken.error);
        }
        if !taken.value {
          return Chosen(name);
        }
        if i == |replies| {
          return OutOfInput;
        }
        var reply := replies[i];
        assert replies[i..][1..] == replies[i + 1..];
        i := i + 1;
        if reply.Line? {
          var line := TrimSpace(reply.text);
          if line != [] {
            name := line;
          }
        }
      }
    }
  }
}
