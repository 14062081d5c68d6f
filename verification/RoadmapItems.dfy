/** Taking the merged items out of the roadmap loses nothing and leaves none. */
module RoadmapItems {
  import opened Roadmap

  // ----- nothing is lost -----

  function Block(body: seq<Line>): seq<Line> { [ItemOpen] + body + [ItemClose] }

  /** Every gap fits into what was kept. */
  predicate Fits(kept: seq<Line>, items: seq<Item>) {
    items == [] || (items[0].gap <= |kept| && Fits(kept[items[0].gap..], items[1..]))
  }

  /** Puts the removed items back where they were. */
  function Restore(kept: seq<Line>, items: seq<Item>): seq<Line>
    requires Fits(kept, items)
  {
    if items == [] then kept
    else kept[..items[0].gap] + Block(items[0].body) + Restore(kept[items[0].gap..], items[1..])
  }

  lemma KeptHead(l: Line, r: Result<Extracted>)
    requires KeepFirst(l, r).Ok?
    ensures r.Ok? && KeepFirst(l, r).value.kept == [l] + r.value.kept
    ensures KeepFirst(l, r).value.kept[1..] == r.value.kept
  {
  }

  lemma RestoreKept(l: Line, r: Result<Extracted>, ls: seq<Line>)
    requires r.Ok? && Fits(r.value.kept, r.value.items) && Restore(r.value.kept, r.value.items) == ls
    ensures var e := KeepFirst(l, r).value; Fits(e.kept, e.items) && Restore(e.kept, e.items) == [l] + ls
  {
    var e, f := r.value, KeepFirst(l, r).value;
    if e.items != [] {
      var gap := e.items[0].gap;
      assert f.items[1..] == e.items[1..];
      assert f.kept[gap + 1..] == e.kept[gap..] && f.kept[..gap + 1] == [l] + e.kept[..gap];
      var back := Restore(e.kept[gap..], e.items[1..]);
      assert [l] + e.kept[..gap] + Block(e.items[0].body) + back == [l] + (e.kept[..gap] + Block(e.items[0].body) + back);
    }
  }

  /** Extracting can be undone: kept lines, item bodies and positions together
      are the lines there were. */
  lemma {:induction false} ExtractLosesNothing(ls: seq<Line>)
    requires Extract(ls).Ok?
    ensures var e := Extract(ls).value; Fits(e.kept, e.items) && Restore(e.kept, e.items) == ls
    decreases |ls|
  {
    hide Extract, KeepFirst, Restore, Fits;
    ExtractStep(ls);
    if ls == [] || ls[0] == ListEnd {
      RestoreNothing(ls);
    } else {
      var close := if ls[0] == ItemOpen then Find(ls, Close, 1) else 0;
      if ls[0] == ItemOpen && StatusMerged in ls[..close + 1] {
        ExtractLosesNothing(ls[close + 1..]);
        RestoreTaken(ls[1..close], Extract(ls[close + 1..]).value, ls[close + 1..]);
        assert ls == [ls[0]] + ls[1..close] + [ls[close]] + ls[close + 1..];
      } else {
        KeptHead(ls[0], Extract(ls[1..]));
        ExtractLosesNothing(ls[1..]);
        RestoreKept(ls[0], Extract(ls[1..]), ls[1..]);
        assert ls == [ls[0]] + ls[1..];
      }
    }
  }

  lemma RestoreNothing(ls: seq<Line>)
    ensures Fits(ls, []) && Restore(ls, []) == ls
  {
  }

  lemma RestoreTaken(body: seq<Line>, e: Extracted, ls: seq<Line>)
    requires Fits(e.kept, e.items) && Restore(e.kept, e.items) == ls
    ensures Fits(e.kept, [Item(0, body)] + e.items)
    ensures Restore(e.kept, [Item(0, body)] + e.items) == Block(body) + ls
  {
    var items := [Item(0, body)] + e.items;
    assert items[1..] == e.items && e.kept[0..] == e.kept && e.kept[..0] == [];
    assert [] + Block(body) + ls == Block(body) + ls;
  }

  /** What is taken out is a merged item, up to its first closing line. */
  lemma {:induction false} ExtractTakesMerged(ls: seq<Line>)
    requires Extract(ls).Ok?
    ensures forall item :: item in Extract(ls).value.items ==> StatusMerged in item.body && ItemClose !in item.body
    decreases |ls|
  {
    hide Extract;
    ExtractStep(ls);
    if ls == [] || ls[0] == ListEnd {
    } else {
      var close := if ls[0] == ItemOpen then Find(ls, Close, 1) else 0;
      if ls[0] == ItemOpen && StatusMerged in ls[..close + 1] {
        ExtractTakesMerged(ls[close + 1..]);
        var body := ls[1..close];
        assert ls[..close + 1] == [ls[0]] + body + [ls[close]];
        assert ItemClose !in body;
      } else {
        ExtractTakesMerged(ls[1..]);
        KeepFirstBodies(ls[0], Extract(ls[1..]));
      }
    }
  }

  lemma KeepFirstBodies(l: Line, r: Result<Extracted>)
    requires r.Ok?
    ensures var items, was := KeepFirst(l, r).value.items, r.value.items;
      |items| == |was| && forall i :: 0 <= i < |items| ==> items[i].body == was[i].body
  {
  }

  // ----- none is left: scanning as an automaton -----

  /** Outside an item; inside one; inside one that reaches past the end of the
      list; past the end; a merged status inside an item. */
  datatype State = Outside | Inside | Ending | Done | Stuck

  function Step(s: State, l: Line): State {
    match s
    case Outside => if l == ItemOpen then Inside else if l == ListEnd then Done else Outside
    case Inside => if l == ItemClose then Outside else if l == StatusMerged then Stuck else if l == ListEnd then Ending else Inside
    case Ending => if l == ItemClose then Done else if l == StatusMerged then Stuck else Ending
    case Done => Done
    case Stuck => Stuck
  }

  function Run(s: State, ls: seq<Line>): State
    decreases |ls|
  {
    if ls == [] then s else Run(Step(s, ls[0]), ls[1..])
  }

  /** No item with a merged status, and no open item, before the end of the list. */
  predicate Settled(ls: seq<Line>) { Run(Outside, ls) in {Outside, Done} }

  lemma {:induction false} RunAppend(s: State, a: seq<Line>, b: seq<Line>)
    ensures Run(s, a + b) == Run(Run(s, a), b)
    decreases |a|
  {
    if a == [] {
      assert a + b == b;
    } else {
      assert (a + b)[0] == a[0] && (a + b)[1..] == a[1..] + b;
      RunAppend(Step(s, a[0]), a[1..], b);
    }
  }

  lemma {:induction false} Absorbed(s: State, ls: seq<Line>)
    requires s in {Done, Stuck}
    ensures Run(s, ls) == s
    decreases |ls|
  {
    if ls != [] { Absorbed(s, ls[1..]); }
  }

  /** An item that is open closes without a merged status. */
  predicate ClosesClean(ls: seq<Line>) {
    var close := Find(ls, Close, 0);
    close < |ls| && StatusMerged !in ls[..close + 1]
  }

  lemma ClosesCleanStep(ls: seq<Line>)
    requires ls != [] && !ls[0].ItemClose?
    ensures ClosesClean(ls) <==> !ls[0].StatusMerged? && ClosesClean(ls[1..])
  {
    var c := Find(ls, Close, 0);
    assert ls == [ls[0]] + ls[1..];
    FindShift([ls[0]], ls[1..], Close, 0);
    if c < |ls| {
      assert ls[..c + 1] == [ls[0]] + ls[1..][..c];
    }
  }

  lemma {:induction false} FromInside(s: State, ls: seq<Line>)
    requires s in {Inside, Ending} && Run(s, ls) in {Outside, Done}
    ensures ClosesClean(ls)
    ensures s == Inside ==> Settled(ls)
    decreases |ls|
  {
    hide ClosesClean, Find;
    if ls == [] {
    } else if ls[0].ItemClose? {
      CleanAtOnce(ls);
    } else {
      ClosesCleanStep(ls);
      if ls[0].StatusMerged? { Absorbed(Stuck, ls[1..]); }
      if ls[0].ListEnd? {
        FromInside(Ending, ls[1..]);
        Absorbed(Done, ls[1..]);
      } else {
        FromInside(s, ls[1..]);
      }
    }
  }

  lemma CleanAtOnce(ls: seq<Line>)
    requires ls != [] && ls[0].ItemClose?
    ensures ClosesClean(ls)
  {
    assert ls[..1] == [ls[0]];
  }

  lemma {:induction false} ToInside(s: State, ls: seq<Line>)
    requires s in {Inside, Ending} && ClosesClean(ls) && (s == Inside ==> Settled(ls))
    ensures Run(s, ls) in {Outside, Done}
    decreases |ls|
  {
    hide ClosesClean, Find;
    CleanNotEmpty(ls);
    if ls[0].ItemClose? {
      if s == Ending { Absorbed(Done, ls[1..]); }
    } else {
      ClosesCleanStep(ls);
      if ls[0].ListEnd? {
        ToInside(Ending, ls[1..]);
      } else if s == Inside && ls[0].ItemOpen? {
        assert Run(Outside, ls) == Run(Inside, ls[1..]);
      } else {
        ToInside(s, ls[1..]);
      }
    }
  }

  lemma CleanNotEmpty(ls: seq<Line>)
    requires ClosesClean(ls)
    ensures ls != []
  {
  }

  lemma ClosesCleanAfterOpen(ls: seq<Line>)
    requires ls != [] && ls[0] == ItemOpen
    ensures ClosesClean(ls[1..]) <==> var close := Find(ls, Close, 1); close < |ls| && StatusMerged !in ls[..close + 1]
  {
    assert ls == [ls[0]] + ls[1..];
    FindShift([ls[0]], ls[1..], Close, 0);
    var close := Find(ls, Close, 1);
    if close < |ls| {
      assert ls[..close + 1] == [ls[0]] + ls[1..][..close];
    }
  }

  /** Extract leaves exactly the settled texts as they are. */
  lemma {:induction false} SettledIsKept(ls: seq<Line>)
    requires Settled(ls)
    ensures Extract(ls) == Ok(Extracted(ls, []))
  {
    hide Extract, ClosesClean, Find;
    ExtractStep(ls);
    if ls == [] || ls[0] == ListEnd {
    } else {
      if ls[0] == ItemOpen {
        FromInside(Inside, ls[1..]);
        ClosesCleanAfterOpen(ls);
      }
      SettledIsKept(ls[1..]);
      assert [ls[0]] + ls[1..] == ls;
    }
  }

  /** Lines up to a clean close are kept. */
  lemma {:induction false} CleanPrefixKept(ls: seq<Line>)
    requires ClosesClean(ls) && Extract(ls).Ok?
    ensures ClosesClean(Extract(ls).value.kept)
  {
    hide Extract, ClosesClean, Find, KeepFirst;
    CleanNotEmpty(ls);
    ExtractStep(ls);
    if ls[0] == ListEnd {
    } else {
      if !ls[0].ItemClose? { ClosesCleanStep(ls); }
      if ls[0] == ItemOpen { ClosesCleanAfterOpen(ls); }
      KeptHead(ls[0], Extract(ls[1..]));
      if ls[0].ItemClose? {
        CleanAtOnce(Extract(ls).value.kept);
      } else {
        CleanPrefixKept(ls[1..]);
        ClosesCleanStep(Extract(ls).value.kept);
      }
    }
  }

  /** After extracting, no merged item is left. */
  lemma {:induction false} ExtractSettles(ls: seq<Line>)
    requires Extract(ls).Ok?
    ensures Settled(Extract(ls).value.kept)
    decreases |ls|
  {
    hide Extract, ClosesClean, Find, KeepFirst;
    ExtractStep(ls);
    if ls == [] || ls[0] == ListEnd {
      if ls != [] { Absorbed(Done, ls[1..]); }
    } else {
      var close := if ls[0] == ItemOpen then Find(ls, Close, 1) else 0;
      if ls[0] == ItemOpen && StatusMerged in ls[..close + 1] {
        ExtractSettles(ls[close + 1..]);
      } else {
        KeptHead(ls[0], Extract(ls[1..]));
        ExtractSettles(ls[1..]);
        if ls[0] == ItemOpen {
          ClosesCleanAfterOpen(ls);
          CleanPrefixKept(ls[1..]);
          ToInside(Inside, Extract(ls[1..]).value.kept);
        }
      }
    }
  }

  /** Extracting again takes nothing more. */
  lemma ExtractTwice(ls: seq<Line>)
    requires Extract(ls).Ok?
    ensures Extract(Extract(ls).value.kept) == Ok(Extracted(Extract(ls).value.kept, []))
  {
    hide Extract;
    ExtractSettles(ls);
    SettledIsKept(Extract(ls).value.kept);
  }
}
