/**
 * Clients of the entry manager: what a caller can conclude from the
 * contracts alone, for a few complete runs.
 */
module Scenarios {
  import opened Common
  import opened NameIndex
  import opened Entries
  import opened Text

  /** Add, get and list one entry, starting with no index file. */
  method AddGetList()
  {
    var store := new IndexStore(Missing);
    var manager := new EntryManager(map[], store);

    var err := manager.AddItem("x", "JBSWY3DPEHPK3PXP", SetAccepted, Written);
    assert err == None;
    assert manager.GetItem("x", {}) == Ok("JBSWY3DPEHPK3PXP");
    assert store.file == Stored(["x"]);

    var listed := manager.ListItems({}, Written);
    assert Kept(["x"], manager.keyring.Keys) == ["x"];
    assert listed == Ok(["x"]);
  }

  /** Delete the one entry, then list and get it, starting from an index that names it. */
  method DeleteListGet()
  {
    var store := new IndexStore(Stored(["x"]));
    var manager := new EntryManager(map["x" := "JBSWY3DPEHPK3PXP"], store);

    assert Without(["x"], "x") == [];
    assert RemoveName(Stored(["x"]), "x", Written) == Step(Stored([]), None);
    var err := manager.DeleteItem("x", false, Written);
    assert err == None;
    assert store.file == Stored([]);

    assert ListOutcome(Stored([]), manager.keyring.Keys, {}, Written) == Listing(Stored([]), Ok([]));
    var listed := manager.ListItems({}, Written);
    assert listed == Ok([]);
    assert manager.GetItem("x", {}) == Err(NameNotFound);
  }

  /** An index naming A and B, with only A in the keyring, lists and saves just A. */
  method ListingHeals()
  {
    var store := new IndexStore(Stored(["A", "B"]));
    var manager := new EntryManager(map["A" := "JBSWY3DP"], store);
    var listed := manager.ListItems({}, Written);
    assert Kept(["A", "B"], manager.keyring.Keys) == ["A"];
    assert listed == Ok(["A"]);
    assert store.file == Stored(["A"]);
  }

  /** A secret the keyring refuses as too large leaves no trace in either store. */
  method TooLargeLeavesNoTrace(before: IndexFile)
  {
    var store := new IndexStore(before);
    var manager := new EntryManager(map[], store);
    var err := manager.AddItem("x", "JBSWY3DP", SetTooBig, Written);
    assert err == Some(SecretTooLarge);
    assert store.file == before && "x" !in manager.keyring;
  }

  /** Deleting a name the keyring lacks but the index still lists succeeds and clears the index. */
  method DeleteIndexedButMissing()
  {
    var store := new IndexStore(Stored(["x"]));
    var manager := new EntryManager(map[], store);
    var err := manager.DeleteItem("x", false, Written);
    assert err == None;
    assert store.file == Stored([]);
  }

  /**
   * A blank reply becomes the candidate name: with "x" taken and one line
   * holding only a newline, the search settles on the empty name. Skipping
   * blank replies keeps the taken name and runs out of input instead.
   */
  method BlankReplyBecomesName()
  {
    var store := new IndexStore(Missing);
    var manager := new EntryManager(map["x" := "JBSWY3DP"], store);
    assert IsSpace('\n');
    assert TrimSpace("\n") == [];
    var replies := [Line("\n")];
    assert [] !in manager.keyring && "x" in manager.keyring;
    var c := manager.PromptNewName("x", replies, {});
    assert replies[0].Line? && TrimSpace(replies[0].text) == [];
    assert !c.OutOfInput? && !c.Aborted?;
    assert c.Chosen? && c.name != "x";
    assert c == Chosen([]);
    var d := manager.PromptNonBlankName("x", replies, {});
    assert d == OutOfInput;
  }

  /** A free initial name is returned before any reply is read, so a failing reply never matters. */
  method FreeInitialNameWins()
  {
    var store := new IndexStore(Missing);
    var manager := new EntryManager(map[], store);
    var c := manager.PromptNewName("x", [Line("d")], {"d"});
    assert c == Chosen("x");
  }

  /** The first free reply is returned; later replies are never read. */
  method FirstFreeReplyWins()
  {
    var store := new IndexStore(Missing);
    var manager := new EntryManager(map["x" := "JBSWY3DP"], store);
    assert TrimSpace("a") == "a";
    var c := manager.PromptNewName("x", [Line("a"), Line("b")], {});
    assert c == Chosen("a");
  }
}
