/** The paper broker: one netted position per symbol, averaged, partly closed or flipped
    by each order, proved against the plain list of its fills. */
module PaperBroker {
  import opened Wrappers
  import opened Reals
  import opened Symbols
  import opened Ledger

  // ---- netting one order into one position ----

  function Opened(o: Order, symbol: string, quantity: real, price: real): Position {
    Position(symbol, o.side, quantity, price, o.stopLoss, o.takeProfit)
  }

  /** The symbol's position after the order has filled at the price. */
  function Netted(existing: Option<Position>, o: Order, price: real): Option<Position>
    requires o.quantity > 0.0 && (existing.Some? ==> existing.value.quantity > 0.0)
  {
    if existing == None then Some(Opened(o, Upper(o.symbol), o.quantity, price))
    else
      var e := existing.value;
      if e.side == o.side then
        var total := e.quantity + o.quantity;
        Some(e.(quantity := total,
                entryPrice := (Mul(e.entryPrice, e.quantity) + Mul(price, o.quantity)) / total))
      else if e.quantity > o.quantity then Some(e.(quantity := e.quantity - o.quantity))
      else if e.quantity < o.quantity then Some(Opened(o, Upper(o.symbol), o.quantity - e.quantity, price))
      else None
  }

  /** The profit the order realises: on the closed part only. */
  function Realised(existing: Option<Position>, o: Order, price: real): real
    requires existing.Some? ==> existing.value.quantity > 0.0
  {
    if existing == None || existing.value.side == o.side then 0.0
    else
      var closing := Min(existing.value.quantity, o.quantity);
      existing.value.UnrealisedPnl(price) * (closing / existing.value.quantity)
  }

  lemma PartialPnl(e: Position, price: real, closing: real)
    requires e.quantity > 0.0
    ensures e.UnrealisedPnl(price) * (closing / e.quantity) ==
            Mul(Signed(e.side, closing), price) - Mul(Signed(e.side, closing), e.entryPrice)
  {
    var delta := if e.side == Sell then -(price - e.entryPrice) else price - e.entryPrice;
    assert e.quantity * (closing / e.quantity) == closing;
    assert (delta * e.quantity) * (closing / e.quantity) == delta * (e.quantity * (closing / e.quantity));
    assert delta * closing == Signed(e.side, closing) * (price - e.entryPrice);
  }

  lemma AveragedCost(side: Side, entry: real, q: real, price: real, r: real)
    requires q > 0.0 && r > 0.0
    ensures Mul(Signed(side, q + r), (Mul(entry, q) + Mul(price, r)) / (q + r)) ==
            Mul(Signed(side, q), entry) + Mul(Signed(side, r), price)
  {
    var total := Mul(entry, q) + Mul(price, r);
    assert (q + r) * (total / (q + r)) == total;
  }

  /** Whatever the order does, sizes add up, and its cost goes into the position's cost
      or is realised: nothing is lost in averaging, partial closing or flipping. */
  lemma NettingConserves(existing: Option<Position>, o: Order, price: real)
    requires o.quantity > 0.0 && (existing.Some? ==> existing.value.quantity > 0.0)
    ensures var after := Netted(existing, o, price);
            && Size(after) == Size(existing) + Signed(o.side, o.quantity)
            && (after.Some? ==> after.value.quantity > 0.0)
            && (after == None <==> Size(existing) + Signed(o.side, o.quantity) == 0.0)
            && Cost(after) == Cost(existing) + Mul(Signed(o.side, o.quantity), price) + Realised(existing, o, price)
  {
    hide Mul, Position.UnrealisedPnl;
    NoCost();
    if existing.Some? {
      var e := existing.value;
      var q, r := e.quantity, o.quantity;
      if e.side == o.side {
        AveragedCost(e.side, e.entryPrice, q, price, r);
      } else {
        PartialPnl(e, price, Min(q, r));
        SignedDifference(e.side, q, r, e.entryPrice);
        SignedDifference(o.side, r, q, price);
        SignedOpposite(e.side, o.side, Min(q, r), price);
      }
    }
  }

  lemma SignedDifference(side: Side, q: real, r: real, a: real)
    ensures Mul(Signed(side, q - r), a) == Mul(Signed(side, q), a) - Mul(Signed(side, r), a)
  {
  }

  lemma SignedOpposite(side: Side, other: Side, q: real, a: real)
    requires side != other
    ensures Mul(Signed(other, q), a) == -Mul(Signed(side, q), a)
  {
  }

  /** The profit per unit of closing a position at a price. */
  function MovePerUnit(side: Side, entryPrice: real, price: real): real {
    match side
    case Buy => price - entryPrice
    case Sell => entryPrice - price
  }

  /** What an order filled at a price makes of a position, and what it gains: opening and adding
      gain nothing; an opposite order gains on the part it closes, and what it leaves is
      untouched; beyond closing it opens the other side. */
  ghost predicate PositionMoved(before: Option<Position>, after: Option<Position>, o: Order, price: real, gain: real) {
    match before
    case None =>
      && after == Some(Position(Upper(o.symbol), o.side, o.quantity, price, o.stopLoss, o.takeProfit))
      && gain == 0.0
    case Some(e) =>
      var move := MovePerUnit(e.side, e.entryPrice, price);
      if o.side == e.side then
        && after.Some? && gain == 0.0
        && after.value.quantity == e.quantity + o.quantity
        && Mul(after.value.entryPrice, after.value.quantity) == Mul(e.entryPrice, e.quantity) + Mul(price, o.quantity)
        && after.value.symbol == e.symbol && after.value.side == e.side
        && after.value.stopLoss == e.stopLoss && after.value.takeProfit == e.takeProfit
      else if o.quantity < e.quantity then
        && after == Some(Position(e.symbol, e.side, e.quantity - o.quantity, e.entryPrice, e.stopLoss, e.takeProfit))
        && gain == Mul(move, o.quantity)
      else if o.quantity == e.quantity then
        after == None && gain == Mul(move, e.quantity)
      else
        && after == Some(Position(Upper(o.symbol), o.side, o.quantity - e.quantity, price, o.stopLoss, o.takeProfit))
        && gain == Mul(move, e.quantity)
  }

  lemma NettingMoves(existing: Option<Position>, o: Order, price: real)
    requires o.quantity > 0.0 && (existing.Some? ==> existing.value.quantity > 0.0)
    ensures PositionMoved(existing, Netted(existing, o, price), o, price, Realised(existing, o, price))
  {
    hide Mul, Position.UnrealisedPnl;
    if existing.Some? {
      var e := existing.value;
      if e.side == o.side {
        var total := e.quantity + o.quantity;
        AverageTimesTotal(Mul(e.entryPrice, e.quantity) + Mul(price, o.quantity), total);
      } else {
        ClosedPnl(e, price, Min(e.quantity, o.quantity));
      }
    }
  }

  lemma AverageTimesTotal(cost: real, total: real)
    requires total > 0.0
    ensures Mul(cost / total, total) == cost
  {
  }

  lemma ClosedPnl(e: Position, price: real, closing: real)
    requires e.quantity > 0.0
    ensures e.UnrealisedPnl(price) * (closing / e.quantity) == Mul(MovePerUnit(e.side, e.entryPrice, price), closing)
  {
    var move := MovePerUnit(e.side, e.entryPrice, price);
    var part := closing / e.quantity;
    assert e.quantity * part == closing;
    assert e.UnrealisedPnl(price) == move * e.quantity;
    assert (move * e.quantity) * part == move * (e.quantity * part);
  }

  /** What a filled order makes of an account: one more fill, the mark at its price, the charge of
      quantity times price times basis points, and its own symbol's position moved. */
  ghost predicate Booked(a: Account, b: Account, o: Order, price: real, fill: Fill) {
    var s := Upper(o.symbol);
    && b.fills == a.fills + [fill] && b.marks == a.marks[s := price]
    && b.initial == a.initial && b.bps == a.bps
    && (forall t | t != s :: Lookup(b.positions, t) == Lookup(a.positions, t))
    && var charge := Commission(o.quantity, price, a.bps);
       && charge * 10000.0 == o.quantity * price * a.bps
       && PositionMoved(Lookup(a.positions, s), Lookup(b.positions, s), o, price, b.balance - a.balance + charge)
  }

  lemma ChargeIs(quantity: real, price: real, bps: real)
    ensures Commission(quantity, price, bps) * 10000.0 == quantity * price * bps
  {
  }

  lemma FillBooked(a: Account, o: Order, price: real, fill: Fill)
    requires o.quantity > 0.0 && forall s | s in a.positions :: a.positions[s].quantity > 0.0
    ensures Booked(a, AfterFill(a, o, price, fill), o, price, fill)
  {
    ChargeIs(o.quantity, price, a.bps);
    hide Netted, Realised, PositionMoved, Commission;
    var s, b := Upper(o.symbol), AfterFill(a, o, price, fill);
    NettingMoves(Lookup(a.positions, s), o, price);
    assert b.balance - a.balance + Commission(o.quantity, price, a.bps) == Realised(Lookup(a.positions, s), o, price);
    assert Lookup(b.positions, s) == Netted(Lookup(a.positions, s), o, price);
  }

  // ---- the dictionary of positions ----

  function Sizes(positions: map<string, Position>): (m: map<string, real>)
    ensures m.Keys == positions.Keys
  {
    map s | s in positions :: Size(Some(positions[s]))
  }

  function Costs(positions: map<string, Position>): (m: map<string, real>)
    ensures m.Keys == positions.Keys
  {
    map s | s in positions :: Cost(Some(positions[s]))
  }

  function Lookup(positions: map<string, Position>, s: string): Option<Position> {
    if s in positions then Some(positions[s]) else None
  }

  function Placed(positions: map<string, Position>, s: string, p: Option<Position>): map<string, Position> {
    if p.Some? then positions[s := p.value] else positions - {s}
  }

  lemma CostsPlaced(positions: map<string, Position>, s: string, p: Option<Position>)
    ensures MapSum(Costs(Placed(positions, s, p))) == MapSum(Costs(positions)) - Cost(Lookup(positions, s)) + Cost(p)
  {
    hide Cost;
    if p.Some? {
      assert Costs(positions[s := p.value]) == Costs(positions)[s := Cost(p)];
      MapSumUpdate(Costs(positions), s, Cost(p));
    } else {
      assert Costs(positions - {s}) == Costs(positions) - {s};
      MapSumWithout(Costs(positions), s);
    }
    NoCost();
  }

  lemma NoCost()
    ensures Cost(None) == 0.0
  {
  }

  function PnlMap(positions: map<string, Position>, marks: map<string, real>): (m: map<string, real>)
    ensures m.Keys == positions.Keys * marks.Keys
  {
    map s | s in positions && s in marks :: positions[s].UnrealisedPnl(marks[s])
  }

  // ---- what the broker's state means ----

  /** The account as values. */
  datatype Account = Account(initial: real, bps: real, balance: real, positions: map<string, Position>,
                             marks: map<string, real>, fills: seq<Fill>)
  {
    /** The state agrees with its list of fills. */
    ghost predicate Agrees() {
      && (forall i | 0 <= i < |fills| ::
            && fills[i].status == Filled && fills[i].quantity > 0.0 && fills[i].price > 0.0
            && fills[i].commission == Round6(Commission(fills[i].quantity, fills[i].price, bps)))
      && Marked(fills, marks)
      && (forall s | s in positions :: positions[s].symbol == s && positions[s].quantity > 0.0)
      && Sizes(positions) == NetMap(fills)
      && balance == initial - Charged(fills, bps) + MapSum(Costs(positions)) - Spent(fills)
    }

    ghost function Equity(): real {
      balance + MapSum(PnlMap(positions, marks))
    }
  }

  lemma {:induction false} ProductMinus(a: map<string, real>, b: map<string, real>, c: map<string, real>)
    requires a.Keys == b.Keys == c.Keys && forall s | s in a :: a[s] == b[s] - c[s]
    ensures MapSum(a) == MapSum(b) - MapSum(c)
    decreases |a|
  {
    if a == map[] {
      assert b == map[] && c == map[];
    } else {
      var k :| k in a;
      MapSumSplit(a, k);
      MapSumSplit(b, k);
      MapSumSplit(c, k);
      ProductMinus(a - {k}, b - {k}, c - {k});
    }
  }

  lemma PnlIsValueMinusCost(p: Position, mark: real)
    ensures p.UnrealisedPnl(mark) == Mul(Size(Some(p)), mark) - Cost(Some(p))
  {
  }

  /** The ledger identity: equity is the initial balance, less every commission charged,
      plus every fill's signed quantity times the move from its price to the mark. */
  lemma EquityIsLedger(a: Account)
    requires a.Agrees()
    ensures a.Equity() == a.initial - Charged(a.fills, a.bps) + MarkToMarket(a.fills, a.marks)
  {
    hide Mul, MapSum, Cost, Size;
    NetsValueFills(a.fills, a.marks);
    var values := Product(Sizes(a.positions), a.marks);
    var pnl := PnlMap(a.positions, a.marks);
    forall s | s in pnl
      ensures pnl[s] == values[s] - Costs(a.positions)[s]
    {
      PnlIsValueMinusCost(a.positions[s], a.marks[s]);
    }
    ProductMinus(pnl, values, Costs(a.positions));
  }

  /** A symbol's open position is the signed sum of its fills, and absent when that is zero. */
  lemma PositionIsNet(a: Account, s: string)
    requires a.Agrees()
    ensures Size(Lookup(a.positions, s)) == NetOf(a.fills, s)
    ensures s in a.positions <==> NetOf(a.fills, s) != 0.0
  {
    NetMapExact(a.fills, s);
    assert s in a.positions <==> s in Sizes(a.positions);
    if s in a.positions {
      assert Sizes(a.positions)[s] == Size(Lookup(a.positions, s));
    }
  }

  /** The account after an order has filled. */
  function AfterFill(a: Account, o: Order, price: real, fill: Fill): Account
    requires o.quantity > 0.0 && forall s | s in a.positions :: a.positions[s].quantity > 0.0
  {
    var s := Upper(o.symbol);
    var existing := Lookup(a.positions, s);
    a.(balance := a.balance - Commission(o.quantity, price, a.bps) + Realised(existing, o, price),
       positions := Placed(a.positions, s, Netted(existing, o, price)),
       marks := a.marks[s := price],
       fills := a.fills + [fill])
  }

  lemma SizesAfter(positions: map<string, Position>, fills: seq<Fill>, f: Fill, p: Option<Position>)
    requires Sizes(positions) == NetMap(fills)
    requires var s := Upper(f.symbol);
             && Size(p) == Size(Lookup(positions, s)) + Signed(f.side, f.quantity)
             && (p == None <==> Size(p) == 0.0)
    ensures Sizes(Placed(positions, Upper(f.symbol), p)) == NetMap(fills + [f])
  {
    assert (fills + [f])[..|fills|] == fills;
  }

  lemma FillKeepsAgreement(a: Account, o: Order, price: real, fill: Fill)
    requires a.Agrees() && o.quantity > 0.0 && price > 0.0
    requires fill == Fill(o.id, o.symbol, o.side, o.quantity, price,
                          Round6(Commission(o.quantity, price, a.bps)), Filled)
    ensures AfterFill(a, o, price, fill).Agrees()
  {
    hide Mul, MapSum, Round6, Commission, Netted, Realised, Size, Cost, Charged, Spent, NetMap;
    var s := Upper(o.symbol);
    var existing := Lookup(a.positions, s);
    var after := Netted(existing, o, price);
    NettingConserves(existing, o, price);
    NoSize(after);
    SizesAfter(a.positions, a.fills, fill, after);
    CostsPlaced(a.positions, s, after);
    NettedSymbol(existing, o, price, s);
    SumsAfter(a.fills, fill, a.bps);
  }

  lemma SumsAfter(fills: seq<Fill>, f: Fill, bps: real)
    ensures Charged(fills + [f], bps) == Charged(fills, bps) + Commission(f.quantity, f.price, bps)
    ensures Spent(fills + [f]) == Spent(fills) + Mul(Signed(f.side, f.quantity), f.price)
  {
    assert (fills + [f])[..|fills|] == fills;
  }

  lemma NoSize(p: Option<Position>)
    requires p.Some? ==> p.value.quantity > 0.0
    ensures p == None <==> Size(p) == 0.0
  {
  }

  lemma NettedSymbol(existing: Option<Position>, o: Order, price: real, s: string)
    requires o.quantity > 0.0 && (existing.Some? ==> existing.value.quantity > 0.0 && existing.value.symbol == s)
    requires s == Upper(o.symbol)
    ensures var p := Netted(existing, o, price); p.Some? ==> p.value.symbol == s
  {
  }

  class PaperBroker {
    const initialBalance: real
    const commissionBps: real
    var balance: real
    var positions: map<string, Position>
    var marks: map<string, real>
    var orders: map<string, Order>
    var fills: seq<Fill>

    constructor (initialBalance: real, commissionBps: real)
      requires initialBalance > 0.0
      ensures Valid()
      ensures this.initialBalance == initialBalance && this.commissionBps == commissionBps
      ensures View() == Account(initialBalance, commissionBps, initialBalance, map[], map[], [])
      ensures orders == map[]
    {
      this.initialBalance, this.commissionBps := initialBalance, commissionBps;
      balance := initialBalance;
      positions, marks, orders, fills := map[], map[], map[], [];
    }

    ghost function View(): Account
      reads this
    {
      Account(initialBalance, commissionBps, balance, positions, marks, fills)
    }

    ghost predicate Valid()
      reads this
    {
      View().Agrees()
    }

    method SetPrice(symbol: string, price: real)
      requires Valid()
      modifies this`marks
      ensures Valid() && marks == old(marks)[Upper(symbol) := price]
    {
      marks := marks[Upper(symbol) := price];
    }

    /** The price an order would fill at: its own, or else the mark. */
    function FillPrice(o: Order): Option<real>
      reads this
    {
      if o.price.Some? then o.price
      else if Upper(o.symbol) in marks then Some(marks[Upper(o.symbol)]) else None
    }

    /** Fill at once, or reject without touching anything when there is no usable price. */
    method Submit(o: Order) returns (fill: Fill)
      requires Valid() && o.Valid()
      modifies this
      ensures Valid()
      ensures var price := old(FillPrice(o));
              if price == None || price.value <= 0.0 then
                && fill == Fill(o.id, o.symbol, o.side, o.quantity, 0.0, 0.0, Rejected)
                && View() == old(View()) && orders == old(orders)
              else
                && fill == Fill(o.id, o.symbol, o.side, o.quantity, price.value,
                                Round6(Commission(o.quantity, price.value, commissionBps)), Filled)
                && Booked(old(View()), View(), o, price.value, fill)
                && View() == AfterFill(old(View()), o, price.value, fill)
                && orders == old(orders)[o.id := o]
    {
      hide Netted, Realised, Round6, Commission, Account.Agrees, Placed;
      var price := FillPrice(o);
      if price == None || price.value <= 0.0 {
        return Fill(o.id, o.symbol, o.side, o.quantity, 0.0, 0.0, Rejected);
      }
      assert forall s | s in positions :: positions[s].quantity > 0.0 by { QuantitiesPositive(View()); }
      ghost var before := View();
      var commission := Commission(o.quantity, price.value, commissionBps);
      balance := balance - commission;
      ApplyToPosition(o, price.value);
      marks := marks[Upper(o.symbol) := price.value];
      orders := orders[o.id := o];
      fill := Fill(o.id, o.symbol, o.side, o.quantity, price.value, Round6(commission), Filled);
      fills := fills + [fill];
      FillKeepsAgreement(before, o, price.value, fill);
      FillBooked(before, o, price.value, fill);
    }

    method ApplyToPosition(o: Order, price: real)
      requires o.quantity > 0.0 && forall s | s in positions :: positions[s].quantity > 0.0
      modifies this`balance, this`positions
      ensures var existing := Lookup(old(positions), Upper(o.symbol));
              && positions == Placed(old(positions), Upper(o.symbol), Netted(existing, o, price))
              && balance == old(balance) + Realised(existing, o, price)
              && PositionMoved(existing, Lookup(positions, Upper(o.symbol)), o, price, balance - old(balance))
    {
      hide Mul, PositionMoved;
      NettingMoves(Lookup(positions, Upper(o.symbol)), o, price);
      var symbol := Upper(o.symbol);
      if symbol !in positions {
        positions := positions[symbol := Opened(o, symbol, o.quantity, price)];
        return;
      }
      var existing := positions[symbol];
      if existing.side == o.side {
        var total := existing.quantity + o.quantity;
        var weighted := (Mul(existing.entryPrice, existing.quantity) + Mul(price, o.quantity)) / total;
        positions := positions[symbol := existing.(quantity := total, entryPrice := weighted)];
        return;
      }
      var closing := Min(existing.quantity, o.quantity);
      var pnl := existing.UnrealisedPnl(price) * (closing / existing.quantity);
      balance := balance + pnl;
      var remaining := existing.quantity - o.quantity;
      if remaining > 0.0 {
        positions := positions[symbol := existing.(quantity := remaining)];
      } else if remaining < 0.0 {
        positions := positions[symbol := Opened(o, symbol, Abs(remaining), price)];
      } else {
        positions := positions - {symbol};
      }
    }

    /** Balance plus unrealised profit. It is what the plain ledger of fills says. */
    method Equity() returns (equity: real)
      requires Valid()
      ensures equity == initialBalance - Charged(fills, commissionBps) + MarkToMarket(fills, marks)
    {
      hide MapSum, Mul;
      var unrealised := 0.0;
      var left := positions.Keys;
      ghost var pnl := PnlMap(positions, marks);
      EmptySum();
      assert pnl - left == map[];
      while left != {}
        invariant left <= positions.Keys
        invariant unrealised == MapSum(pnl - left)
      {
        var s :| s in left;
        var mark := positions[s].symbol;
        if mark in marks {
          unrealised := unrealised + positions[s].UnrealisedPnl(marks[mark]);
        }
        MapSumWithout(pnl - (left - {s}), s);
        assert pnl - (left - {s}) - {s} == pnl - left;
        left := left - {s};
      }
      assert pnl - left == pnl;
      equity := balance + unrealised;
      EquityIsLedger(View());
    }
  }

  lemma QuantitiesPositive(a: Account)
    requires a.Agrees()
    ensures forall s | s in a.positions :: a.positions[s].quantity > 0.0
  {
  }
}
