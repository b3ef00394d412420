/** When the engine and the oracle agree: always, except where the engine's
    32-bit fill-or-kill sum wraps below the quantity asked for. */
module Differential {
  import opened Types
  import opened Matching
  import opened Invariant
  import Book
  import Oracle
  import Audit

  /** The command is a fill-or-kill order that the liquidity on offer would
      fill, but whose sum does not fit 32 bits and wraps to less than asked. */
  ghost predicate Hazard(st: State, c: Command) {
    && c.kind.Limit? && c.tif.FOK? && !Rests(st, c.id)
    && var offered := Fillable(st.book.On(c.side.Opposite()), LimitTaker(c));
       offered >= TWO32 && Wrap(offered) < c.qty
  }

  lemma SomethingTrades(makers: seq<Resting>, t: Taker, qty: Qty, seqNo: nat, tradeId: nat)
    requires qty > 0 && Fillable(makers, t) > 0
    ensures Sweep(makers, t, qty, seqNo, tradeId).trades != []
  {
  }

  lemma WrapIsLess(n: nat)
    ensures Wrap(n) <= n
    ensures n < TWO32 ==> Wrap(n) == n
  {
  }

  /** One command has the same outcome on both, or different ones: that is
      decided by the hazard alone. Either way their outcomes tell. */
  lemma StepsAgreeIff(st: State, c: Command)
    ensures !Hazard(st, c) ==> Step(Word32, st, c) == Step(Exact, st, c)
    ensures Hazard(st, c) ==> Step(Word32, st, c).1 != Step(Exact, st, c).1
  {
    var makers := st.book.On(c.side.Opposite());
    WrapIsLess(Fillable(makers, LimitTaker(c)));
    if Hazard(st, c) {
      SomethingTrades(makers, LimitTaker(c), c.qty, st.nextSeq, st.nextTrade);
    }
  }

  /** Some command of the run meets the hazard. */
  ghost predicate RunHazard(st: State, cs: seq<Command>)
    decreases |cs|
  {
    cs != [] && (Hazard(st, cs[0]) || RunHazard(Step(Exact, st, cs[0]).0, cs[1..]))
  }

  /** The engine and the oracle give the same outcomes to a whole run if and
      only if no command of it meets the hazard; and then the books agree. */
  lemma {:induction false} RunsAgreeIff(st: State, cs: seq<Command>)
    ensures Run(Word32, st, cs).1 == Run(Exact, st, cs).1 <==> !RunHazard(st, cs)
    ensures !RunHazard(st, cs) ==> Run(Word32, st, cs).0 == Run(Exact, st, cs).0
    decreases |cs|
  {
    hide Step;
    hide Hazard;
    if cs != [] {
      StepsAgreeIff(st, cs[0]);
      var a, b := Run(Word32, st, cs).1, Run(Exact, st, cs).1;
      assert a[0] == Step(Word32, st, cs[0]).1 && b[0] == Step(Exact, st, cs[0]).1;
      if !Hazard(st, cs[0]) {
        var next := Step(Exact, st, cs[0]).0;
        RunsAgreeIff(next, cs[1..]);
        assert a[1..] == Run(Word32, next, cs[1..]).1;
        assert b[1..] == Run(Exact, next, cs[1..]).1;
        assert a == [a[0]] + a[1..] && b == [b[0]] + b[1..];
      }
    }
  }

  const BIG := Resting(Sell, 100, 1, 0xFFFF_FFFF, 1, 0)
  const SMALL := Resting(Sell, 100, 2, 2, 1, 1)
  const TWO_ASKS := State(2, BySide([], [BIG, SMALL]), 2, 0)

  /** Asks of 4294967295 and 2 can come to rest on both. */
  lemma TwoAsksRest(w: Width)
    ensures Run(w, Initial(2), [Command(Limit, 1, Sell, GTC, 100, 0xFFFF_FFFF, 1),
                                Command(Limit, 2, Sell, GTC, 100, 2, 1)]).0 == TWO_ASKS
  {
    var st := State(2, BySide([], [BIG]), 1, 0);
    var c0 := Command(Limit, 1, Sell, GTC, 100, 0xFFFF_FFFF, 1);
    var c1 := Command(Limit, 2, Sell, GTC, 100, 2, 1);
    assert Insert(Sell, [], BIG) == [BIG];
    assert Step(w, Initial(2), c0).0 == st;
    assert Insert(Sell, [BIG], SMALL) == [BIG, SMALL];
    assert Step(w, st, c1).0 == TWO_ASKS;
    assert [c0, c1][1..] == [c1];
    assert Run(w, st, [c1]).0 == TWO_ASKS;
  }

  /** Then a fill-or-kill buy of 5 could be filled, but the engine adds up 1 and
      kills it. */
  lemma WrapKillsAFillableOrder()
    ensures
      var fok := Command(Limit, 3, Buy, FOK, 100, 5, 2);
      && Step(Word32, TWO_ASKS, fok).1 == Outcome(true, 0, false, false, [])
      && Step(Exact, TWO_ASKS, fok).1 == Outcome(true, 0, false, false, [Trade(1, 3, 100, 5, 0, 2)])
  {
    var fok := LimitTaker(Command(Limit, 3, Buy, FOK, 100, 5, 2));
    assert [BIG, SMALL][1..] == [SMALL];
    assert Fillable([SMALL], fok) == 2;
    assert Fillable([BIG, SMALL], fok) == 0x1_0000_0001;
  }

  /** The engine's structures never show a violation, so the states pass exactly
      when the resting orders are the same. */
  method SameState(engine: Book.Book, oracle: Oracle.Oracle) returns (same: bool)
    requires engine.Valid() && oracle.Valid()
    ensures same <==> engine.model.book.bids + engine.model.book.asks == oracle.model.book.bids + oracle.model.book.asks
  {
    hide Book.Book.Valid;
    hide Oracle.Oracle.Valid;
    hide Audit.Represents;
    hide Audit.PartsOk;
    Audit.ValidIsRepresented(engine);
    assert forall x :: x in engine.Repr() ==> allocated(x);
    var violation := Audit.InvariantViolation(engine);
    if violation.Some? {
      return false;
    }
    var a := engine.Snapshot();
    var b := oracle.Snapshot();
    same := a == b;
  }

  /** Runs every command on the engine and on the oracle and reports the first
      one after which their outcomes or their books differ. */
  method RunBoth(capacity: Index, hash: OrderId -> nat, cs: seq<Command>) returns (diverged: Option<nat>)
    ensures diverged.None? <==> !RunHazard(Initial(capacity), cs)
    ensures diverged.Some? ==>
              && diverged.value < |cs|
              && !RunHazard(Initial(capacity), cs[..diverged.value])
              && RunHazard(Initial(capacity), cs[..diverged.value + 1])
  {
    hide Book.Book.Valid;
    hide Oracle.Oracle.Valid;
    hide Step;
    hide Hazard;
    var engine := new Book.Book(capacity, hash);
    var oracle := new Oracle.Oracle(capacity);
    for i := 0 to |cs|
      invariant engine.Valid() && oracle.Valid() && fresh(engine.Repr()) && fresh(oracle) && oracle !in engine.Repr()
      invariant engine.model == oracle.model == Run(Exact, Initial(capacity), cs[..i]).0
      invariant !RunHazard(Initial(capacity), cs[..i])
    {
      RunExtend(Initial(capacity), cs, i);
      StepsAgreeIff(engine.model, cs[i]);
      var a := engine.Apply(cs[i]);
      var b := oracle.Apply(cs[i]);
      var same := SameState(engine, oracle);
      if a != b || !same {
        HazardLasts(Initial(capacity), cs, i + 1);
        return Some(i);
      }
    }
    assert cs[..|cs|] == cs;
    return None;
  }

  lemma {:induction false} HazardLasts(st: State, cs: seq<Command>, i: nat)
    requires i <= |cs| && RunHazard(st, cs[..i])
    ensures RunHazard(st, cs)
    decreases i
  {
    hide Step;
    hide Hazard;
    if !Hazard(st, cs[0]) {
      assert cs[..i][1..] == cs[1..][..i - 1];
      HazardLasts(Step(Exact, st, cs[0]).0, cs[1..], i - 1);
    }
  }

  /** A run and one command more. */
  lemma {:induction false} RunExtend(st: State, cs: seq<Command>, i: nat)
    requires i < |cs|
    ensures
      var st' := Run(Exact, st, cs[..i]).0;
      && Run(Exact, st, cs[..i + 1]).0 == Step(Exact, st', cs[i]).0
      && (RunHazard(st, cs[..i + 1]) <==> RunHazard(st, cs[..i]) || Hazard(st', cs[i]))
    decreases i
  {
    hide Step;
    hide Hazard;
    var head, more := cs[..i], cs[..i + 1];
    if i == 0 {
      assert more == [cs[0]];
    } else {
      RunExtend(Step(Exact, st, cs[0]).0, cs[1..], i - 1);
      assert head[1..] == cs[1..][..i - 1] && more[1..] == cs[1..][..i];
    }
  }
}
