/**
 * The job that rebuilds the responder's `hosts` file: take the domains of a
 * public hosts blocklist, remove those of an allow list, and write the rest one
 * per line.
 */
module DenyListUpdater {
  import opened Wrappers
  import opened Text
  import HostsFile

  /** Added to the allow list by hand, whatever the downloaded list says. */
  const AlwaysAllowed: string := "static.adsafeprotected.com"

  /**
   * The domain named by a blocklist line: `0.0.0.0 (.*)` anchored to the
   * whole line. The dots are unescaped, so they match any character.
   */
  function HostsEntry(line: string): (d: Option<string>)
    ensures d.Some? ==> |line| >= 8 && line == line[..8] + d.value
    ensures d.Some? <==> |line| >= 8 && line[0] == '0' && line[2] == '0' && line[4] == '0' && line[6] == '0' && line[7] == ' '
  {
    if |line| >= 8 && line[0] == '0' && line[2] == '0' && line[4] == '0' && line[6] == '0' && line[7] == ' '
    then Some(line[8..])
    else None
  }

  /**
   * The domain named by an allow-list line: `\|\|(.*)\^` anchored to the whole
   * line. The group is greedy, so everything between the leading "||" and the
   * final '^' is taken, further '^' included.
   */
  function AllowEntry(line: string): (d: Option<string>)
    ensures d.Some? ==> line == "||" + d.value + "^"
    ensures d.Some? <==> |line| >= 3 && line[0] == '|' && line[1] == '|' && line[|line| - 1] == '^'
  {
    if |line| >= 3 && line[0] == '|' && line[1] == '|' && line[|line| - 1] == '^'
    then Some(line[2..|line| - 1])
    else None
  }

  /** The dots of the blocklist pattern match any character, and the domain is the rest of the line, spaces included. */
  lemma HostsPatternDotsAreWildcards()
    ensures HostsEntry("0x0y0z0 ads.example  # tracker") == Some("ads.example  # tracker")
    ensures HostsEntry("127.0.0.1 localhost") == None
  {
  }

  /** The allow-list group runs to the last '^' of the line. */
  lemma AllowPatternIsGreedy()
    ensures AllowEntry("||a.com^x^") == Some("a.com^x")
    ensures AllowEntry("||a.com^x") == None
  {
    assert "||a.com^x^"[2..9] == "a.com^x";
  }

  /** Every domain some line of the blocklist names. */
  function DenyList(text: string): (deny: set<string>)
    ensures forall d :: d in deny ==> NoNewline(d)
  {
    LinesHaveNoNewline(text);
    set l | l in Lines(text) && HostsEntry(l).Some? :: HostsEntry(l).value
  }

  /** Every domain some line of the allow list names, and the one allowed by hand. */
  function AllowList(text: string): (allow: set<string>)
    ensures AlwaysAllowed in allow
    ensures forall d :: d in allow ==> NoNewline(d)
  {
    LinesHaveNoNewline(text);
    assert forall l :: l in Lines(text) && AllowEntry(l).Some? ==> NoNewline(AllowEntry(l).value) by {
      forall l | l in Lines(text) && AllowEntry(l).Some? ensures NoNewline(AllowEntry(l).value) {
        var v := AllowEntry(l).value;
        forall k | 0 <= k < |v| ensures v[k] != '\n' {
          assert v[k] == l[k + 2];
        }
      }
    }
    {AlwaysAllowed} + set l | l in Lines(text) && AllowEntry(l).Some? :: AllowEntry(l).value
  }

  /** A domain is blocked exactly when some whole line of the blocklist names it. */
  lemma DenyListAt(text: string, d: string)
    ensures d in DenyList(text) <==>
      exists p: nat, q: nat :: LineSpan(text, p, q) && HostsEntry(text[p..q]) == Some(d)
  {
    if d in DenyList(text) {
      var l :| l in Lines(text) && HostsEntry(l) == Some(d);
      var p, q := LineHasSpan(text, l);
    }
    forall p: nat, q: nat | LineSpan(text, p, q) && HostsEntry(text[p..q]) == Some(d) ensures d in DenyList(text) {
      SpanIsLine(text, p, q);
    }
  }

  /** A domain is allowed exactly when it is the hand-added one or some whole line of the allow list names it. */
  lemma AllowListAt(text: string, d: string)
    ensures d in AllowList(text) <==>
      d == AlwaysAllowed || exists p: nat, q: nat :: LineSpan(text, p, q) && AllowEntry(text[p..q]) == Some(d)
  {
    if d in AllowList(text) && d != AlwaysAllowed {
      var l :| l in Lines(text) && AllowEntry(l) == Some(d);
      var p, q := LineHasSpan(text, l);
    }
    forall p: nat, q: nat | LineSpan(text, p, q) && AllowEntry(text[p..q]) == Some(d) ensures d in AllowList(text) {
      SpanIsLine(text, p, q);
    }
  }

  /** A blocklist line "0.0.0.0 d" anywhere in the file blocks `d`, even with other lines around it. */
  lemma HostsLineBlocks(before: string, d: string, after: string)
    requires before == "" || before[|before| - 1] == '\n'
    requires after == "" || after[0] == '\n'
    requires NoNewline(d)
    ensures d in DenyList(before + "0.0.0.0 " + d + after)
  {
    var text := before + "0.0.0.0 " + d + after;
    var p, q := |before|, |before| + 8 + |d|;
    assert text[p..q] == "0.0.0.0 " + d;
    assert p > 0 ==> text[p - 1] == before[|before| - 1];
    assert q < |text| ==> text[q] == after[0];
    assert HostsEntry(text[p..q]) == Some(d);
    DenyListAt(text, d);
  }

  /** Writing the domains of `deny` that are not in `allow`, each followed by a line feed, in an unspecified order. */
  method SerializeDifference(deny: set<string>, allow: set<string>) returns (text: string, order: seq<string>)
    ensures forall d :: d in order <==> d in deny && d !in allow
    ensures forall i, j :: 0 <= i < j < |order| ==> order[i] != order[j]
    ensures text == Terminated(order)
    ensures text == "" <==> deny <= allow
    ensures text != "" ==> text[|text| - 1] == '\n'
  {
    text, order := "", [];
    var remaining := deny - allow;
    while remaining != {}
      invariant forall d :: d in order ==> d in deny && d !in allow && d !in remaining
      invariant forall d :: d in deny && d !in allow ==> d in order || d in remaining
      invariant remaining <= deny - allow
      invariant forall i, j :: 0 <= i < j < |order| ==> order[i] != order[j]
      invariant text == Terminated(order)
      decreases |remaining|
    {
      var d :| d in remaining;
      TerminatedAppend(order, d);
      text, order := text + d + "\n", order + [d];
      remaining := remaining - {d};
    }
    TerminatedShape(order);
    if |order| > 0 {
      assert order[0] in deny - allow;
    }
  }

  /** The file the responder loads lists exactly the blocked domains that are not allowed. */
  lemma LoadSerialized(text: string, order: seq<string>, deny: set<string>, allow: set<string>)
    requires forall d :: d in order <==> d in deny && d !in allow
    requires text == Terminated(order)
    requires forall d :: d in deny ==> NoNewline(d) && !EndsWithCr(d)
    ensures HostsFile.Load(Some(text)) == deny - allow
  {
    HostsFile.LoadTerminated(order);
  }

  /**
   * The whole job on the two downloaded texts: the hosts file it writes, and
   * the order in which its lines were written.
   */
  method BuildHostsFile(blocklist: string, allowlist: string) returns (text: string, order: seq<string>)
    ensures forall d :: d in order <==> d in DenyList(blocklist) && d !in AllowList(allowlist)
    ensures forall i, j :: 0 <= i < j < |order| ==> order[i] != order[j]
    ensures text == Terminated(order)
    ensures AlwaysAllowed !in order
    ensures (forall d :: d in DenyList(blocklist) ==> !EndsWithCr(d)) ==>
      HostsFile.Load(Some(text)) == DenyList(blocklist) - AllowList(allowlist)
  {
    var deny := DenyList(blocklist);
    var allow := AllowList(allowlist);
    text, order := SerializeDifference(deny, allow);
    if forall d :: d in deny ==> !EndsWithCr(d) {
      LoadSerialized(text, order, deny, allow);
    }
  }
}
