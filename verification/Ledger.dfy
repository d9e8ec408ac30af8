/** The trivial ledger a netting broker must agree with: the list of fills, and sums
    over it. */
module Ledger {
  import opened Wrappers
  import opened Reals
  import opened Symbols

  datatype Side = Buy | Sell

  datatype Status = Filled | Rejected

  datatype Order = Order(id: string, symbol: string, side: Side, quantity: real, price: Option<real>,
                         stopLoss: Option<real>, takeProfit: Option<real>)
  {
    /** The orders construction does not reject. */
    predicate Valid() {
      && quantity > 0.0
      && (price.Some? ==> price.value > 0.0)
      && (stopLoss.Some? ==> stopLoss.value > 0.0)
      && (takeProfit.Some? ==> takeProfit.value > 0.0)
    }
  }

  datatype Fill = Fill(orderId: string, symbol: string, side: Side, quantity: real, price: real,
                       commission: real, status: Status)

  datatype Position = Position(symbol: string, side: Side, quantity: real, entryPrice: real,
                               stopLoss: Option<real>, takeProfit: Option<real>)
  {
    function UnrealisedPnl(mark: real): real {
      var delta := mark - entryPrice;
      (if side == Sell then -delta else delta) * quantity
    }
  }

  function Signed(side: Side, quantity: real): real {
    if side == Buy then quantity else -quantity
  }

  function Size(p: Option<Position>): real {
    if p.Some? then Signed(p.value.side, p.value.quantity) else 0.0
  }

  /** What the open quantity cost. */
  function Cost(p: Option<Position>): real {
    if p.Some? then Mul(Size(p), p.value.entryPrice) else 0.0
  }

  // ---- sums over the fills ----

  /** The signed sum of a symbol's fills. */
  function NetOf(fills: seq<Fill>, symbol: string): real {
    if fills == [] then 0.0
    else
      var f := fills[|fills| - 1];
      NetOf(fills[..|fills| - 1], symbol) + if Upper(f.symbol) == symbol then Signed(f.side, f.quantity) else 0.0
  }

  /** What all fills cost. */
  function Spent(fills: seq<Fill>): real {
    if fills == [] then 0.0
    else
      var f := fills[|fills| - 1];
      Spent(fills[..|fills| - 1]) + Mul(Signed(f.side, f.quantity), f.price)
  }

  function Commission(quantity: real, price: real, bps: real): real {
    quantity * price * bps / 10000.0
  }

  /** The commissions charged for all fills, before any rounding. */
  function Charged(fills: seq<Fill>, bps: real): real {
    if fills == [] then 0.0
    else
      var f := fills[|fills| - 1];
      Charged(fills[..|fills| - 1], bps) + Commission(f.quantity, f.price, bps)
  }

  predicate Marked(fills: seq<Fill>, marks: map<string, real>) {
    forall i | 0 <= i < |fills| :: Upper(fills[i].symbol) in marks
  }

  /** Profit of every fill, measured from its own price to the current mark. */
  function MarkToMarket(fills: seq<Fill>, marks: map<string, real>): real
    requires Marked(fills, marks)
  {
    if fills == [] then 0.0
    else
      var f := fills[|fills| - 1];
      MarkToMarket(fills[..|fills| - 1], marks) + Mul(Signed(f.side, f.quantity), marks[Upper(f.symbol)] - f.price)
  }

  /** The non-zero nets, symbol by symbol. */
  function NetMap(fills: seq<Fill>): map<string, real> {
    if fills == [] then map[]
    else
      var f := fills[|fills| - 1];
      var s := Upper(f.symbol);
      var before := NetMap(fills[..|fills| - 1]);
      var net := (if s in before then before[s] else 0.0) + Signed(f.side, f.quantity);
      if net == 0.0 then before - {s} else before[s := net]
  }

  lemma {:induction false} NetMapExact(fills: seq<Fill>, s: string)
    ensures s in NetMap(fills) <==> NetOf(fills, s) != 0.0
    ensures s in NetMap(fills) ==> NetMap(fills)[s] == NetOf(fills, s)
  {
    if fills != [] {
      NetMapExact(fills[..|fills| - 1], s);
    }
  }

  // ---- sums over a dictionary ----

  ghost function MapSum(m: map<string, real>): real {
    if m == map[] then 0.0
    else
      var k :| k in m;
      m[k] + MapSum(m - {k})
  }

  lemma {:induction false} MapSumSplit(m: map<string, real>, k: string)
    requires k in m
    ensures MapSum(m) == m[k] + MapSum(m - {k})
    decreases |m|
  {
    var c :| c in m && MapSum(m) == m[c] + MapSum(m - {c});
    if c != k {
      MapSumSplit(m - {c}, k);
      MapSumSplit(m - {k}, c);
      assert m - {c} - {k} == m - {k} - {c};
    }
  }

  function ValueAt(m: map<string, real>, k: string): real {
    if k in m then m[k] else 0.0
  }

  lemma MapSumWithout(m: map<string, real>, k: string)
    ensures MapSum(m - {k}) == MapSum(m) - ValueAt(m, k)
  {
    if k in m {
      MapSumSplit(m, k);
    } else {
      assert m - {k} == m;
    }
  }

  lemma MapSumUpdate(m: map<string, real>, k: string, v: real)
    ensures MapSum(m[k := v]) == MapSum(m) - ValueAt(m, k) + v
  {
    MapSumSplit(m[k := v], k);
    assert m[k := v] - {k} == m - {k};
    MapSumWithout(m, k);
  }

  function Product(sizes: map<string, real>, prices: map<string, real>): (m: map<string, real>)
    requires sizes.Keys <= prices.Keys
    ensures m.Keys == sizes.Keys
  {
    map s | s in sizes :: Mul(sizes[s], prices[s])
  }

  lemma ProductUpdate(sizes: map<string, real>, prices: map<string, real>, s: string, v: real)
    requires sizes.Keys <= prices.Keys && s in prices
    ensures Product(sizes[s := v], prices) == Product(sizes, prices)[s := Mul(v, prices[s])]
    ensures Product(sizes - {s}, prices) == Product(sizes, prices) - {s}
  {
  }

  lemma {:induction false} NetMapMarked(fills: seq<Fill>, marks: map<string, real>)
    requires Marked(fills, marks)
    ensures NetMap(fills).Keys <= marks.Keys
  {
    if fills != [] {
      NetMapMarked(fills[..|fills| - 1], marks);
    }
  }

  /** Netting loses nothing: valued at any marks, the nets are worth what the fills are. */
  lemma {:induction false} NetsValueFills(fills: seq<Fill>, marks: map<string, real>)
    requires Marked(fills, marks)
    ensures NetMap(fills).Keys <= marks.Keys
    ensures MapSum(Product(NetMap(fills), marks)) == MarkToMarket(fills, marks) + Spent(fills)
  {
    hide Mul, MapSum;
    NetMapMarked(fills, marks);
    if fills == [] {
      assert Product(NetMap(fills), marks) == map[];
      EmptySum();
    } else {
      var init := fills[..|fills| - 1];
      var f := fills[|fills| - 1];
      NetsValueFills(init, marks);
      NetMapStep(init, f, marks);
      assert init + [f] == fills;
      MulMinus(Signed(f.side, f.quantity), marks[Upper(f.symbol)], f.price);
    }
  }

  lemma EmptySum()
    ensures MapSum(map[]) == 0.0
  {
  }

  lemma MulMinus(x: real, y: real, z: real)
    ensures Mul(x, y - z) == Mul(x, y) - Mul(x, z)
  {
  }

  lemma NetMapSnoc(init: seq<Fill>, f: Fill)
    ensures var s := Upper(f.symbol);
            var net := ValueAt(NetMap(init), s) + Signed(f.side, f.quantity);
            NetMap(init + [f]) == if net == 0.0 then NetMap(init) - {s} else NetMap(init)[s := net]
  {
    assert (init + [f])[..|init|] == init;
  }

  lemma ProductEntry(sizes: map<string, real>, marks: map<string, real>, s: string)
    requires sizes.Keys <= marks.Keys && s in marks
    ensures ValueAt(Product(sizes, marks), s) == Mul(ValueAt(sizes, s), marks[s])
  {
    ZeroTimes(marks[s]);
  }

  lemma NetMapStep(init: seq<Fill>, f: Fill, marks: map<string, real>)
    requires Marked(init + [f], marks)
    requires NetMap(init).Keys <= marks.Keys && NetMap(init + [f]).Keys <= marks.Keys
    ensures MapSum(Product(NetMap(init + [f]), marks)) ==
            MapSum(Product(NetMap(init), marks)) + Mul(Signed(f.side, f.quantity), marks[Upper(f.symbol)])
  {
    hide Mul, MapSum, NetMap, Product, ValueAt;
    var s := Upper(f.symbol);
    assert (init + [f])[|init|] == f;
    NetMapSnoc(init, f);
    var before := NetMap(init);
    var size := ValueAt(before, s);
    var net := size + Signed(f.side, f.quantity);
    var value := Product(before, marks);
    ProductUpdate(before, marks, s, net);
    ProductEntry(before, marks, s);
    Distribute(size, Signed(f.side, f.quantity), marks[s]);
    if net == 0.0 {
      MapSumWithout(value, s);
      ZeroTimes(marks[s]);
    } else {
      MapSumUpdate(value, s, Mul(net, marks[s]));
    }
  }

  // ---- reported commissions ----

  /** Half-to-even rounding to an integer. */
  function RoundHalfEven(x: real): int {
    var n := x.Floor;
    var r := x - n as real;
    if r < 0.5 then n else if r > 0.5 then n + 1 else if n % 2 == 0 then n else n + 1
  }

  function Round6(x: real): real {
    RoundHalfEven(x * 1000000.0) as real / 1000000.0
  }

  lemma Round6Near(x: real)
    ensures Abs(Round6(x) - x) <= 0.0000005
  {
    var y := x * 1000000.0;
    assert Abs(RoundHalfEven(y) as real - y) <= 0.5;
  }

  function Reported(fills: seq<Fill>): real {
    if fills == [] then 0.0 else Reported(fills[..|fills| - 1]) + fills[|fills| - 1].commission
  }

  /** The commissions the fills report are rounded; the ones charged are not. They drift
      apart by at most half a millionth per fill. */
  lemma {:induction false} ReportedNearCharged(fills: seq<Fill>, bps: real)
    requires forall i | 0 <= i < |fills| ::
               fills[i].commission == Round6(Commission(fills[i].quantity, fills[i].price, bps))
    ensures Abs(Reported(fills) - Charged(fills, bps)) <= |fills| as real * 0.0000005
  {
    hide Round6, Commission;
    if fills != [] {
      var f := fills[|fills| - 1];
      ReportedNearCharged(fills[..|fills| - 1], bps);
      Round6Near(Commission(f.quantity, f.price, bps));
    }
  }

  predicate IsWhole(x: real) {
    x.Floor as real == x
  }

  /** Rounding leaves exactly the whole numbers of millionths alone. */
  lemma Round6Exactly(x: real)
    ensures Round6(x) == x <==> IsWhole(x * 1000000.0)
  {
    var y := x * 1000000.0;
    var n := RoundHalfEven(y);
    assert Round6(x) == x <==> n as real == y;
    if n as real == y {
      assert y.Floor == n;
    }
  }

  /** A fill reports the commission it is charged exactly when quantity times price times
      basis points is a whole number of hundredths; a run of such fills reports it all. */
  lemma {:induction false} ReportedExactly(fills: seq<Fill>, bps: real)
    requires forall i | 0 <= i < |fills| ::
               fills[i].commission == Round6(Commission(fills[i].quantity, fills[i].price, bps))
    ensures forall i | 0 <= i < |fills| ::
              var f := fills[i];
              f.commission == Commission(f.quantity, f.price, bps) <==> IsWhole(f.quantity * f.price * bps * 100.0)
    ensures (forall i | 0 <= i < |fills| :: IsWhole(fills[i].quantity * fills[i].price * bps * 100.0)) ==>
              Reported(fills) == Charged(fills, bps)
  {
    if fills != [] {
      var m := |fills| - 1;
      var init, f := fills[..m], fills[m];
      ReportedExactly(init, bps);
      assert forall i | 0 <= i < m :: init[i] == fills[i];
      Round6Exactly(Commission(f.quantity, f.price, bps));
      assert Commission(f.quantity, f.price, bps) * 1000000.0 == f.quantity * f.price * bps * 100.0;
    }
  }

  /** One unit at half a cent, at the default basis point: half a millionth is charged, and the
      rounding reports nothing. */
  lemma SmallFillUnreported()
    ensures var charge := Commission(1.0, 0.005, 1.0); charge == 0.0000005 && Round6(charge) == 0.0
  {
    assert (0.5 as real).Floor == 0;
  }
}
