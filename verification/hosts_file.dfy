/**
 * The responder's denylist as loaded once at cold start from the bundled file
 * `./hosts`: every line read, inserted as it is.
 */
module HostsFile {
  import opened Wrappers
  import opened Text

  /**
   * The set built from the file's contents; `None` is a file that cannot be
   * opened, which leaves the set empty instead of failing.
   */
  function Load(file: Option<string>): (hosts: set<string>)
    ensures file.None? ==> hosts == {}
    ensures forall h :: h in hosts ==> NoNewline(h)
  {
    match file
    case None => {}
    case Some(text) => set line | line in ReadLines(text)
  }

  /** Loading a file of terminated entries gives back exactly those entries. */
  lemma LoadTerminated(entries: seq<string>)
    requires forall k :: 0 <= k < |entries| ==> NoNewline(entries[k]) && !EndsWithCr(entries[k])
    ensures Load(Some(Terminated(entries))) == set e | e in entries
  {
    ReadTerminated(entries);
  }

  /** Lines are stored verbatim: no trimming, no case folding, no dot stripping. */
  lemma LoadKeepsLinesVerbatim()
    ensures Load(Some(" Ads.Example.COM. \n")) == {" Ads.Example.COM. "}
  {
    var entries := [" Ads.Example.COM. "];
    assert Terminated(entries[1..]) == "";
    assert Terminated(entries) == " Ads.Example.COM. \n";
    LoadTerminated(entries);
  }

  /** A Windows line ending loses its carriage return, and a final line without a line feed still counts. */
  lemma LoadTrimsCrlf()
    ensures Load(Some("a\r\nb")) == {"a", "b"}
  {
    var s := "a\r\nb";
    FindNewlineAt(s, 2);
    assert s[..2] == "a\r";
    assert s[3..] == "b";
    assert "a\r"[..1] == "a";
    assert DropCr("a\r") == "a";
    FindNewline("b");
    assert Find("b", "\n") == 1;
    assert ReadLines("b") == ["b"];
    assert ReadLines(s) == ["a", "b"];
  }
}
