/** When a request for history is answered (extend/research/history.go), and with which bars, in terms of what was
    committed. */
module HistoryAnswers {
  import opened Grouping
  import opened HistoryPaging
  import opened Results
  import opened Sorting

  /** Commit k is the last one for the symbol. */
  ghost predicate LastCommit(ups: seq<Refresh>, symbol: string, k: nat) {
    k < |ups| && ups[k].symbol == symbol && forall m :: k < m < |ups| ==> ups[m].symbol != symbol
  }

  lemma {:induction false} OthersLeaveIt(c: Contents, ups: seq<Refresh>, symbol: string)
    requires forall m :: 0 <= m < |ups| ==> ups[m].symbol != symbol
    ensures Replay(c, ups).Of(symbol) == c.Of(symbol)
    decreases ups
  {
    if ups != [] {
      OthersLeaveIt(Upserted(c, ups[0].symbol, ups[0].bars, ups[0].actions), ups[1..], symbol);
    }
  }

  /** Whether a symbol's actions count as checked, and which they are, is up to its last commit alone. */
  lemma {:induction false} LastCommitDecides(c: Contents, ups: seq<Refresh>, symbol: string, k: nat)
    requires LastCommit(ups, symbol, k)
    ensures var s := Replay(c, ups).Of(symbol);
      s.checked == ups[k].actions.Some? && (s.checked ==> s.actions == PutActions([], ups[k].actions.value))
    decreases ups
  {
    var d := Upserted(c, ups[0].symbol, ups[0].bars, ups[0].actions);
    if k == 0 {
      forall m | 0 <= m < |ups[1..]| ensures ups[1..][m].symbol != symbol {
        assert ups[1..][m] == ups[m + 1];
      }
      OthersLeaveIt(d, ups[1..], symbol);
    } else {
      forall m | k - 1 < m < |ups[1..]| ensures ups[1..][m].symbol != symbol {
        assert ups[1..][m] == ups[m + 1];
      }
      LastCommitDecides(d, ups[1..], symbol, k - 1);
    }
  }

  ghost predicate Listed(a: Action, actions: seq<Action>) {
    exists i :: 0 <= i < |actions| && SameKey(a, actions[i])
  }

  lemma {:induction false} PutActionLists(actions: seq<Action>, a: Action, x: Action)
    ensures Listed(x, PutAction(actions, a)) <==> SameKey(x, a) || Listed(x, actions)
  {
    var r := PutAction(actions, a);
    if actions == [] {
      assert r[0] == a;
    } else if SameKey(actions[0], a) {
      assert forall i :: 1 <= i < |r| ==> r[i] == actions[i];
      assert r[0] == a;
    } else {
      PutActionLists(actions[1..], a, x);
      assert r == [actions[0]] + PutAction(actions[1..], a);
      ListedSplits(x, actions);
      ListedSplits(x, r);
      assert r[1..] == PutAction(actions[1..], a);
    }
  }

  lemma ListedSplits(x: Action, actions: seq<Action>)
    requires actions != []
    ensures Listed(x, actions) <==> SameKey(x, actions[0]) || Listed(x, actions[1..])
  {
    if i :| 0 <= i < |actions| && SameKey(x, actions[i]) {
      assert i > 0 ==> actions[1..][i - 1] == actions[i];
    }
    if i :| 0 <= i < |actions[1..]| && SameKey(x, actions[1..][i]) {
      assert actions[i + 1] == actions[1..][i];
    }
  }

  /** Laying actions over others forgets no date and category, and adds none. */
  lemma {:induction false} PutActionsLists(actions: seq<Action>, more: seq<Action>, x: Action)
    ensures Listed(x, PutActions(actions, more)) <==> Listed(x, actions) || Listed(x, more)
    decreases more
  {
    if more != [] {
      PutActionLists(actions, more[0], x);
      PutActionsLists(PutAction(actions, more[0]), more[1..], x);
      ListedSplits(x, more);
    }
  }

  /** A share conversion in force by a date. */
  ghost predicate Converted(actions: seq<Action>, date: int) {
    exists i :: 0 <= i < |actions| && actions[i].date <= date && actions[i].category in {11, 12}
  }

  lemma ConversionInForce(actions: seq<Action>, date: int)
    ensures HasConversion(Filter(actions, KnownAction(date))) <==> Converted(actions, date)
  {
    ConversionShows(actions, date);
    if i :| 0 <= i < |actions| && actions[i].date <= date && actions[i].category in {11, 12} {
      assert Converts(actions[i], date);
    }
    if i :| 0 <= i < |actions| && Converts(actions[i], date) {
      assert actions[i].date <= date;
    }
  }

  lemma ConversionSurvives(more: seq<Action>, date: int)
    ensures Converted(PutActions([], more), date) <==> Converted(more, date)
  {
    var r := PutActions([], more);
    if i :| 0 <= i < |r| && r[i].date <= date && r[i].category in {11, 12} {
      PutActionsLists([], more, r[i]);
      assert SameKey(r[i], r[i]);
    }
    if i :| 0 <= i < |more| && more[i].date <= date && more[i].category in {11, 12} {
      PutActionsLists([], more, more[i]);
      assert SameKey(more[i], more[i]);
    }
  }

  /** An unadjusted answer is always given; an adjusted one exactly when the symbol's last commit brought checked
      actions, none of them a share conversion in force by the end date, and some bar is stored up to then. */
  lemma AnsweredExactlyWhen(c: Contents, ups: seq<Refresh>, q: Query, k: nat)
    requires LastCommit(ups, q.symbol, k)
    ensures var d := Replay(c, ups);
      Answer(d, q).Ok?
      <==> q.mode == Raw
           || (ups[k].actions.Some? && !Converted(ups[k].actions.value, q.end)
               && exists b :: b in d.Of(q.symbol).bars && b.date <= q.end)
  {
    var s := Replay(c, ups).Of(q.symbol);
    LastCommitDecides(c, ups, q.symbol, k);
    FilterMembers(s.bars, Known(q.end));
    ConversionInForce(s.actions, q.end);
    if ups[k].actions.Some? {
      ConversionSurvives(ups[k].actions.value, q.end);
    }
    var known := Filter(s.bars, Known(q.end));
    assert known != [] ==> known[0] in known;
  }

  /** A page is served exactly when the window is not upside down, the limit is from 1 to 1000, the version expected, if
      any, is the current one, and there is an answer; and then it says the version. */
  lemma PageIsServed(c: Contents, q: Query, before: Option<int>, version: Option<nat>)
    ensures PageAt(c, q, before, version).Ok?
       <==> (q.start == None || q.start.value <= q.end) && 1 <= q.limit <= 1000
            && (version == None || version == Some(c.revision)) && Answer(c, q).Ok?
    ensures PageAt(c, q, before, version).Ok? ==>
      var p := PageAt(c, q, before, version).value; p.version == c.revision && |p.bars| <= q.limit
  {
  }

  lemma AnswerDates(c: Contents, q: Query) returns (known: seq<Bar>)
    requires Answer(c, q).Ok?
    ensures known == Filter(c.Of(q.symbol).bars, Known(q.end)) && |Answer(c, q).value| == |known|
    ensures forall i :: 0 <= i < |known| ==> Answer(c, q).value[i].date == known[i].date
    ensures forall b :: b in known <==> b in c.Of(q.symbol).bars && b.date <= q.end
  {
    known := Filter(c.Of(q.symbol).bars, Known(q.end));
    FilterMembers(c.Of(q.symbol).bars, Known(q.end));
  }

  /** An answer has one bar for each stored bar up to the end date, and no other. */
  lemma AnswerHoldsTheBars(c: Contents, q: Query, date: int)
    requires Answer(c, q).Ok?
    ensures (exists i :: 0 <= i < |Answer(c, q).value| && Answer(c, q).value[i].date == date)
       <==> date <= q.end && exists b :: b in c.Of(q.symbol).bars && b.date == date
  {
    var out := Answer(c, q).value;
    var known := AnswerDates(c, q);
    if i :| 0 <= i < |out| && out[i].date == date {
      assert known[i] in known;
    }
    if b :| b in c.Of(q.symbol).bars && b.date == date && date <= q.end {
      var i :| 0 <= i < |known| && known[i] == b;
      assert out[i].date == date;
    }
  }

  /** Pages followed by cursor from the newest on hold exactly the bars of the answer that are not before the start. */
  lemma PagesHoldTheWindow(c: Contents, q: Query, pages: seq<Page>, b: Bar)
    requires c.Valid() && Followed(c, q, None, pages)
    ensures Answer(c, q).Ok?
    ensures b in Joined(pages) <==> b in Answer(c, q).value && (q.start == None || q.start.value <= b.date)
  {
    PagesAreTheAnswer(c, q, None, pages);
    FilterMembers(Answer(c, q).value, Inside(q.start, None));
  }
}
