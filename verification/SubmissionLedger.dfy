/**
 * What the frontend has issued against what the driver has taken
 * (guest/opengl/frontend.cpp, lines 391-457): order, repetition and loss.
 */
module SubmissionLedger {

  /** A command record: its place in issue order, the context that issued it and its size. */
  datatype Entry = Entry(serial: nat, context: nat, words: nat)

  ghost predicate Genuine(issued: seq<Entry>, line: seq<Entry>) {
    forall i :: 0 <= i < |line| ==> line[i].serial < |issued| && issued[line[i].serial] == line[i]
  }

  /** Issue order over all contexts; with Genuine, no record is repeated. */
  ghost predicate Increasing(line: seq<Entry>) {
    forall i, j :: 0 <= i < j < |line| ==> line[i].serial < line[j].serial
  }

  /** Issue order of each context's own records. */
  ghost predicate StreamOrdered(line: seq<Entry>) {
    forall i, j :: 0 <= i < j < |line| && line[i].context == line[j].context ==> line[i].serial < line[j].serial
  }

  /** Each issued record is either in the line or lost, never both. */
  ghost predicate Kept(issued: seq<Entry>, line: seq<Entry>, lost: set<nat>) {
    && (forall k :: k in lost ==> k < |issued|)
    && (forall k :: 0 <= k < |issued| ==> issued[k].serial == k && (issued[k] in line <==> k !in lost))
  }

  function Serials(part: seq<Entry>): (r: set<nat>)
    ensures forall e :: e in part ==> e.serial in r
    ensures part == [] ==> r == {}
  {
    set e | e in part :: e.serial
  }

  ghost predicate Ledger(issued: seq<Entry>, line: seq<Entry>, lost: set<nat>, overtook: bool) {
    Genuine(issued, line) && StreamOrdered(line) && Kept(issued, line, lost) && (!overtook ==> Increasing(line))
  }

  ghost predicate AllOf(part: seq<Entry>, context: nat) {
    forall i :: 0 <= i < |part| ==> part[i].context == context
  }

  ghost predicate NoneOf(part: seq<Entry>, context: nat) {
    forall i :: 0 <= i < |part| ==> part[i].context != context
  }

  /** A record issued ahead of what waits in `after` keeps the books; it overtakes exactly when something waits there. */
  lemma IssueInserts(issued: seq<Entry>, before: seq<Entry>, after: seq<Entry>, lost: set<nat>, overtook: bool, e: Entry)
    requires Ledger(issued, before + after, lost, overtook) && e.serial == |issued| && NoneOf(after, e.context)
    ensures Ledger(issued + [e], before + [e] + after, lost, overtook || after != [])
    ensures after != [] ==> !Increasing(before + [e] + after)
  {
    StillGenuine(issued, before, after, e);
    StillKept(issued, before, after, lost, e);
    StillOrdered(issued, before, after, e);
    if after == [] {
      assert before + after == before && before + [e] + after == before + [e];
      LastIncreasing(issued, before, e);
    } else {
      var line, next := before + after, before + [e] + after;
      assert next[|before|] == e && next[|before| + 1] == after[0] == line[|before|];
    }
  }

  lemma LastIncreasing(issued: seq<Entry>, before: seq<Entry>, e: Entry)
    requires Genuine(issued, before) && e.serial == |issued|
    ensures Increasing(before) ==> Increasing(before + [e])
  {
  }

  lemma StillGenuine(issued: seq<Entry>, before: seq<Entry>, after: seq<Entry>, e: Entry)
    requires Genuine(issued, before + after) && e.serial == |issued|
    ensures Genuine(issued + [e], before + [e] + after)
  {
    var line, next := before + after, before + [e] + after;
    forall i | 0 <= i < |next|
      ensures next[i].serial < |issued| + 1 && (issued + [e])[next[i].serial] == next[i]
    {
      if i < |before| {
        assert next[i] == line[i];
      } else if i > |before| {
        assert next[i] == line[i - 1];
      }
    }
  }

  lemma StillKept(issued: seq<Entry>, before: seq<Entry>, after: seq<Entry>, lost: set<nat>, e: Entry)
    requires Kept(issued, before + after, lost) && Genuine(issued, before + after) && e.serial == |issued|
    ensures Kept(issued + [e], before + [e] + after, lost)
  {
    var all, line, next := issued + [e], before + after, before + [e] + after;
    assert next[|before|] == e;
    forall k | 0 <= k < |all|
      ensures all[k].serial == k && (all[k] in next <==> k !in lost)
    {
      if k < |issued| {
        InsertedIn(before, after, e, issued[k]);
      }
    }
  }

  lemma InsertedIn(before: seq<Entry>, after: seq<Entry>, e: Entry, x: Entry)
    ensures x in before + [e] + after <==> x == e || x in before + after
  {
  }

  lemma StillOrdered(issued: seq<Entry>, before: seq<Entry>, after: seq<Entry>, e: Entry)
    requires Genuine(issued, before + after) && StreamOrdered(before + after) && e.serial == |issued| && NoneOf(after, e.context)
    ensures StreamOrdered(before + [e] + after)
  {
    var line, next := before + after, before + [e] + after;
    forall t | |before| < t < |next|
      ensures next[t].context != e.context
    {
      assert next[t] == after[t - |before| - 1];
    }
    forall i, j | 0 <= i < j < |next| && next[i].context == next[j].context
      ensures next[i].serial < next[j].serial
    {
      var a, b := if i > |before| then i - 1 else i, if j > |before| then j - 1 else j;
      assert i != |before| ==> next[i] == line[a];
      assert j != |before| ==> next[j] == line[b];
    }
  }

  /** No record is in the line twice. */
  lemma OnePlace(issued: seq<Entry>, line: seq<Entry>, i: nat, j: nat)
    requires Genuine(issued, line) && StreamOrdered(line) && i < |line| && j < |line| && line[i] == line[j]
    ensures i == j
  {
  }

  /** A part that is dropped is lost, record by record, and nothing else is. */
  lemma DropLoses(issued: seq<Entry>, before: seq<Entry>, part: seq<Entry>, after: seq<Entry>, lost: set<nat>, overtook: bool)
    requires Ledger(issued, before + part + after, lost, overtook)
    ensures Ledger(issued, before + after, lost + Serials(part), overtook)
  {
    var line, next := before + part + after, before + after;
    forall i | 0 <= i < |next|
      ensures next[i] == line[if i < |before| then i else i + |part|]
    {
    }
    DropKeepsRest(issued, before, part, after, lost);
  }

  lemma DropKeepsRest(issued: seq<Entry>, before: seq<Entry>, part: seq<Entry>, after: seq<Entry>, lost: set<nat>)
    requires var line := before + part + after; Genuine(issued, line) && StreamOrdered(line) && Kept(issued, line, lost)
    ensures Kept(issued, before + after, lost + Serials(part))
  {
    hide StreamOrdered;
    var line := before + part + after;
    forall e | e in part
      ensures e.serial < |issued| && issued[e.serial] == e && e !in before + after
    {
      PartIsElsewhere(issued, before, part, after, e);
    }
    forall k | 0 <= k < |issued|
      ensures issued[k] in before + after <==> k !in lost + Serials(part)
    {
      SplitIn(before, part, after, issued[k]);
      if k in Serials(part) {
        var e :| e in part && e.serial == k;
      }
    }
  }

  lemma SplitIn(before: seq<Entry>, part: seq<Entry>, after: seq<Entry>, x: Entry)
    ensures x in before + part + after <==> x in part || x in before + after
  {
  }

  lemma PartIsElsewhere(issued: seq<Entry>, before: seq<Entry>, part: seq<Entry>, after: seq<Entry>, e: Entry)
    requires Genuine(issued, before + part + after) && StreamOrdered(before + part + after) && e in part
    ensures e.serial < |issued| && issued[e.serial] == e && e !in before + after
  {
    hide StreamOrdered;
    var line := before + part + after;
    var i :| 0 <= i < |part| && part[i] == e;
    assert line[|before| + i] == e;
    if e in before + after {
      var j :| 0 <= j < |before + after| && (before + after)[j] == e;
      assert line[if j < |before| then j else j + |part|] == e;
      OnePlace(issued, line, |before| + i, if j < |before| then j else j + |part|);
    }
  }

  /** With nothing lost and nothing overtaken the line is the issue order itself. */
  lemma {:induction false} LineIsIssueOrder(issued: seq<Entry>, line: seq<Entry>, k: nat)
    requires Increasing(line) && Kept(issued, line, {}) && k <= |issued|
    ensures k <= |line| && forall i :: 0 <= i < k ==> line[i] == issued[i]
    decreases k
  {
    if k > 0 {
      LineIsIssueOrder(issued, line, k - 1);
      assert issued[k - 1] in line;
      var j :| 0 <= j < |line| && line[j] == issued[k - 1];
      NoEarlierPlace(line, j, k - 1);
    }
  }

  lemma NoEarlierPlace(line: seq<Entry>, j: nat, k: nat)
    requires Increasing(line) && k <= |line| && j < |line| && line[j].serial == k
    requires forall i :: 0 <= i < k ==> line[i].serial == i
    ensures j == k
  {
    assert forall t :: k < t < |line| ==> line[k].serial < line[t].serial;
    assert k > 0 && k < |line| ==> line[k - 1].serial < line[k].serial;
  }

  lemma {:induction false} SerialsGrow(line: seq<Entry>, i: nat)
    requires Increasing(line) && i < |line|
    ensures line[i].serial >= i
  {
    if i > 0 {
      SerialsGrow(line, i - 1);
      assert line[i - 1].serial < line[i].serial;
    }
  }

  lemma NothingLostInOrder(issued: seq<Entry>, line: seq<Entry>)
    requires Ledger(issued, line, {}, false)
    ensures line == issued
  {
    LineIsIssueOrder(issued, line, |issued|);
    if line != [] {
      SerialsGrow(line, |line| - 1);
    }
  }
}
