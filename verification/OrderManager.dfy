/** Validation in front of the broker, and closing a position. */
module OrderManager {
  import opened Wrappers
  import opened Reals
  import opened Symbols
  import opened Ledger
  import opened PaperBroker

  datatype Direction = Bullish | Bearish | Neutral

  datatype OrderError = BadQuantity | NeutralDirection | WrongSide | BadPrice

  /** Stop on the losing side and target on the winning side of the price. */
  predicate StopsAgree(d: Direction, price: real, stopLoss: Option<real>, takeProfit: Option<real>) {
    && (stopLoss.Some? && d == Bullish ==> stopLoss.value < price)
    && (stopLoss.Some? && d == Bearish ==> stopLoss.value > price)
    && (takeProfit.Some? && d == Bullish ==> takeProfit.value > price)
    && (takeProfit.Some? && d == Bearish ==> takeProfit.value < price)
  }

  /** The checks, in the order they are made. */
  function ValidateStops(d: Direction, price: real, stopLoss: Option<real>,
                         takeProfit: Option<real>): (r: Result<(), OrderError>)
    ensures r == Ok(()) <==> StopsAgree(d, price, stopLoss, takeProfit)
    ensures r.Err? ==> r.error == WrongSide
  {
    if stopLoss.Some? && d == Bullish && stopLoss.value >= price then Err(WrongSide)
    else if stopLoss.Some? && d == Bearish && stopLoss.value <= price then Err(WrongSide)
    else if takeProfit.Some? && d == Bullish && takeProfit.value <= price then Err(WrongSide)
    else if takeProfit.Some? && d == Bearish && takeProfit.value >= price then Err(WrongSide)
    else Ok(())
  }

  predicate Positive(x: Option<real>) {
    x.Some? ==> x.value > 0.0
  }

  /** The requests that reach the broker. */
  predicate Acceptable(d: Direction, quantity: real, price: Option<real>, stopLoss: Option<real>,
                       takeProfit: Option<real>) {
    && quantity > 0.0
    && d != Neutral
    && (price.Some? ==> StopsAgree(d, price.value, stopLoss, takeProfit))
    && Positive(price) && Positive(stopLoss) && Positive(takeProfit)
  }

  /** Selling out a long or buying back a short leaves nothing open, and realises the
      whole of the position's profit at the price. */
  lemma ClosingFlattens(p: Position, o: Order, price: real)
    requires p.quantity > 0.0 && o.quantity == p.quantity && o.side != p.side
    ensures Netted(Some(p), o, price) == None
    ensures Realised(Some(p), o, price) == p.UnrealisedPnl(price)
  {
    assert p.quantity / p.quantity == 1.0;
    MulOne(p.UnrealisedPnl(price));
  }

  class OrderManager {
    const broker: PaperBroker

    constructor (broker: PaperBroker)
      ensures this.broker == broker
    {
      this.broker := broker;
    }

    /** Submit exactly the acceptable requests; the others change nothing. */
    method Execute(id: string, symbol: string, d: Direction, quantity: real, price: Option<real>,
                   stopLoss: Option<real>, takeProfit: Option<real>) returns (r: Result<Fill, OrderError>)
      requires broker.Valid()
      modifies broker
      ensures broker.Valid()
      ensures r.Ok? <==> Acceptable(d, quantity, price, stopLoss, takeProfit)
      ensures r.Err? ==> broker.View() == old(broker.View()) && broker.orders == old(broker.orders)
      ensures r.Err? ==>
                r.error == if quantity <= 0.0 then BadQuantity
                           else if d == Neutral then NeutralDirection
                           else if price.Some? && !StopsAgree(d, price.value, stopLoss, takeProfit) then WrongSide
                           else BadPrice
      ensures r.Ok? ==>
                var side := if d == Bullish then Buy else Sell;
                var o := Order(id, Upper(symbol), side, quantity, price, stopLoss, takeProfit);
                var mark := if Upper(symbol) in old(broker.marks) then Some(old(broker.marks)[Upper(symbol)]) else None;
                var usable := if price.Some? then price else mark;
                && r.value.symbol == Upper(symbol) && r.value.quantity == quantity && r.value.side == side
                && (r.value.status == Filled <==> usable.Some? && usable.value > 0.0)
                && (if r.value.status == Filled
                    then r.value.price == usable.value
                         && Booked(old(broker.View()), broker.View(), o, usable.value, r.value)
                    else broker.View() == old(broker.View()))
    {
      hide Booked, Account.Agrees, AfterFill;
      UpperIdempotent(symbol);
      if quantity <= 0.0 {
        return Err(BadQuantity);
      }
      if d == Neutral {
        return Err(NeutralDirection);
      }
      if price.Some? {
        var checked := ValidateStops(d, price.value, stopLoss, takeProfit);
        if checked.Err? {
          return Err(checked.error);
        }
      }
      if !Positive(price) || !Positive(stopLoss) || !Positive(takeProfit) {
        return Err(BadPrice);
      }
      var o := Order(id, Upper(symbol), if d == Bullish then Buy else Sell, quantity, price, stopLoss, takeProfit);
      var fill := broker.Submit(o);
      r := Ok(fill);
    }

    /** Close whatever is open in the symbol. A price that is not positive is an error, if
        there is anything to close. Once filled, nothing is open in the symbol, every other
        position is as it was, and the balance has moved by exactly the position's profit
        at the fill price less the commission. */
    method Close(id: string, symbol: string, price: Option<real>) returns (r: Result<Option<Fill>, OrderError>)
      requires broker.Valid()
      modifies broker
      ensures broker.Valid()
      ensures r == Ok(None) <==> Upper(symbol) !in old(broker.positions)
      ensures r.Err? <==> Upper(symbol) in old(broker.positions) && !Positive(price)
      ensures r.Err? || r.value == None || r.value.value.status == Rejected ==>
                broker.View() == old(broker.View()) && broker.orders == old(broker.orders)
      ensures r.Ok? && r.value.Some? && r.value.value.status == Filled ==>
                var p, fill := old(broker.positions)[Upper(symbol)], r.value.value;
                && broker.positions == old(broker.positions) - {Upper(symbol)}
                && broker.fills == old(broker.fills) + [fill]
                && broker.balance == old(broker.balance) + p.UnrealisedPnl(fill.price)
                                     - Commission(p.quantity, fill.price, broker.commissionBps)
    {
      hide Netted, Realised, Commission, Account.Agrees;
      var s := Upper(symbol);
      if s !in broker.positions {
        return Ok(None);
      }
      if !Positive(price) {
        return Err(BadPrice);
      }
      var position := broker.positions[s];
      assert position.symbol == s && position.quantity > 0.0 by { OpenPosition(broker.View(), s); }
      UpperIdempotent(symbol);
      var side := if position.side == Buy then Sell else Buy;
      var o := Order(id, position.symbol, side, position.quantity, price, None, None);
      var fill := broker.Submit(o);
      ClosingFlattens(position, o, fill.price);
      r := Ok(Some(fill));
    }
  }

  lemma OpenPosition(a: Account, s: string)
    requires a.Agrees() && s in a.positions
    ensures a.positions[s].symbol == s && a.positions[s].quantity > 0.0
  {
  }
}
