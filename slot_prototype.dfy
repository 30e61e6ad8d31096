/** The earlier slot machine prototype: a table whose weights do not sum to
    one, a subtractive weighted draw that returns the symbol's name, three
    draws, and a payout only on three of a kind. */
module SlotPrototype {
  import opened Wrappers
  import WeightedChoice

  datatype Symbol = Symbol(symbol: string, weight: real, payout: real)

  datatype SlotResult = SlotResult(symbols: seq<string>, winnings: real, totalBet: real)

  const NumberOfSpin: nat := 3

  /** Grapes, tangerine, lemon, watermelon, slot machine, cherries, gem. */
  const Symbols: seq<Symbol> := [
    Symbol("\U{1F347}", 0.25, 2.0),
    Symbol("\U{1F34A}", 0.2, 3.0),
    Symbol("\U{1F34B}", 0.15, 4.0),
    Symbol("\U{1F349}", 0.12, 5.0),
    Symbol("\U{1F3B0}", 0.08, 10.0),
    Symbol("\U{1F352}", 0.05, 15.0),
    Symbol("\U{1F48E}", 0.05, 20.0)
  ]

  function Weights(symbols: seq<Symbol>): (ws: seq<real>)
    ensures |ws| == |symbols|
    ensures forall i :: 0 <= i < |symbols| ==> ws[i] == symbols[i].weight
  {
    seq(|symbols|, i requires 0 <= i < |symbols| => symbols[i].weight)
  }

  function Names(symbols: seq<Symbol>): (names: seq<string>)
    ensures |names| == |symbols|
    ensures forall i :: 0 <= i < |symbols| ==> names[i] == symbols[i].symbol
  {
    seq(|symbols|, i requires 0 <= i < |symbols| => symbols[i].symbol)
  }

  /** `name` is what `weightedRandom` gives for the uniform draw `u`: the name
      of the first symbol whose cumulative weight exceeds `u * totalWeight`,
      else the first symbol's name. */
  ghost predicate DrawnBy(symbols: seq<Symbol>, u: real, name: string)
    requires |symbols| > 0
  {
    var ws := Weights(symbols);
    var r := WeightedChoice.ScaledDraw(u, WeightedChoice.Sum(ws));
    && (forall i: nat :: WeightedChoice.FirstAbove(ws, r, i) ==> name == symbols[i].symbol)
    && (WeightedChoice.NoneAbove(ws, r) ==> name == symbols[0].symbol)
  }

  method WeightedRandom(symbols: seq<Symbol>, u: real) returns (name: string)
    requires |symbols| > 0
    ensures name in Names(symbols)
    ensures DrawnBy(symbols, u, name)
  {
    var ws := Weights(symbols);
    var totalWeight := WeightedChoice.Sum(ws);
    var random := WeightedChoice.ScaledDraw(u, totalWeight);
    var pick := WeightedChoice.SubtractiveWalk(ws, random);
    if pick.Some? {
      name := symbols[pick.value].symbol;
      forall i: nat | WeightedChoice.FirstAbove(ws, random, i)
        ensures name == symbols[i].symbol
      {
        WeightedChoice.FirstAboveUnique(ws, random, i, pick.value);
      }
      assert Names(symbols)[pick.value] == name;
    } else {
      name := symbols[0].symbol;
      assert Names(symbols)[0] == name;
    }
  }

  /** For a uniform draw in [0, 1) over non-negative weights, the subtractive
      walk agrees with the cumulative-interval rule: the name returned is that
      of the symbol whose interval [Prefix(i), Prefix(i + 1)) holds the draw. */
  lemma DrawMatchesCumulativeInterval(symbols: seq<Symbol>, u: real, name: string, i: nat)
    requires |symbols| > 0 && WeightedChoice.NonNegative(Weights(symbols)) && 0.0 <= u < 1.0
    requires DrawnBy(symbols, u, name) && i < |symbols|
    requires var ws := Weights(symbols);
      var r := WeightedChoice.ScaledDraw(u, WeightedChoice.Sum(ws));
      WeightedChoice.Prefix(ws, i) <= r < WeightedChoice.Prefix(ws, i + 1)
    ensures name == symbols[i].symbol
  {
    var ws := Weights(symbols);
    var r := WeightedChoice.ScaledDraw(u, WeightedChoice.Sum(ws));
    WeightedChoice.PrefixAll(ws);
    WeightedChoice.PrefixMonotone(ws, 0, |ws|);
    assert 0.0 <= r;
    WeightedChoice.FirstAboveIsInterval(ws, r, i);
  }

  /** The draw loop: one weighted draw per reel. */
  method SpinReels(symbols: seq<Symbol>, draws: seq<real>) returns (drawnSymbols: seq<string>)
    requires |symbols| > 0
    ensures |drawnSymbols| == |draws|
    ensures forall i :: 0 <= i < |draws| ==>
      drawnSymbols[i] in Names(symbols) && DrawnBy(symbols, draws[i], drawnSymbols[i])
  {
    drawnSymbols := [];
    for i := 0 to |draws|
      invariant |drawnSymbols| == i
      invariant forall k :: 0 <= k < i ==>
        drawnSymbols[k] in Names(symbols) && DrawnBy(symbols, draws[k], drawnSymbols[k])
    {
      var drawnSymbol := WeightedRandom(symbols, draws[i]);
      drawnSymbols := drawnSymbols + [drawnSymbol];
    }
  }

  /** `SYMBOLS.find(s => s.symbol === name)`. */
  function Find(symbols: seq<Symbol>, name: string): (found: Option<Symbol>)
    ensures found.Some? ==> found.value in symbols && found.value.symbol == name
    ensures found.None? <==> name !in Names(symbols)
  {
    if symbols == [] then None
    else if symbols[0].symbol == name then Some(symbols[0])
    else
      var rest := Find(symbols[1..], name);
      assert Names(symbols) == [symbols[0].symbol] + Names(symbols[1..]);
      rest
  }

  predicate AllSame(names: seq<string>)
    requires |names| > 0
  {
    forall i :: 0 <= i < |names| ==> names[i] == names[0]
  }

  /** The winnings for the drawn names: the bet times the payout of the
      symbol found for the first name, when all names agree; else nothing. */
  function Winnings(symbols: seq<Symbol>, betAmount: real, drawnSymbols: seq<string>): real
    requires |drawnSymbols| > 0
  {
    if AllSame(drawnSymbols) then
      match Find(symbols, drawnSymbols[0])
      case Some(winningSymbol) => betAmount * winningSymbol.payout
      case None => 0.0
    else 0.0
  }

  /** `SlotMachine(betAmount)`: spin three reels, then pay on three of a kind. */
  method SlotMachine(betAmount: real, draws: seq<real>) returns (result: SlotResult)
    requires |draws| == NumberOfSpin
    ensures |result.symbols| == NumberOfSpin
    ensures forall i :: 0 <= i < NumberOfSpin ==>
      result.symbols[i] in Names(Symbols) && DrawnBy(Symbols, draws[i], result.symbols[i])
    ensures result.winnings == Winnings(Symbols, betAmount, result.symbols)
    ensures result.totalBet == betAmount
  {
    var drawnSymbols := SpinReels(Symbols, draws);
    var winnings := Winnings(Symbols, betAmount, drawnSymbols);
    result := SlotResult(drawnSymbols, winnings, betAmount);
  }

  /** The net result `playSlotMachine` reports. */
  function NetResult(result: SlotResult): real
  {
    result.winnings - result.totalBet
  }

  // ---------------------------------------------------------------------
  // Properties of the table and of the payout.

  predicate PositivePayouts(symbols: seq<Symbol>)
  {
    forall i :: 0 <= i < |symbols| ==> symbols[i].payout > 0.0
  }

  /** The weights are not normalised: they sum to 0.9, which is why the draw
      is scaled by the actual total rather than taken as is. */
  lemma TableWeightsSumToNineTenths()
    ensures WeightedChoice.Sum(Weights(Symbols)) == 0.9
  {
    var ws := Weights(Symbols);
    assert ws == [0.25, 0.2, 0.15, 0.12, 0.08, 0.05, 0.05];
    assert WeightedChoice.Prefix(ws, 0) == 0.0;
    WeightedChoice.PrefixStep(ws, 0);
    WeightedChoice.PrefixStep(ws, 1);
    WeightedChoice.PrefixStep(ws, 2);
    WeightedChoice.PrefixStep(ws, 3);
    WeightedChoice.PrefixStep(ws, 4);
    WeightedChoice.PrefixStep(ws, 5);
    WeightedChoice.PrefixStep(ws, 6);
    WeightedChoice.PrefixAll(ws);
  }

  /** Every payout of the table lies in [2, 20]. */
  lemma TablePayouts()
    ensures PositivePayouts(Symbols)
    ensures forall i :: 0 <= i < |Symbols| ==> 2.0 <= Symbols[i].payout <= 20.0
  {
  }

  /** For a positive bet on names from a table with positive payouts, there
      are winnings exactly when all three names agree, and then they are the
      bet times the payout of the symbol with that name. */
  lemma WinsIffAllSame(symbols: seq<Symbol>, betAmount: real, drawnSymbols: seq<string>)
    requires PositivePayouts(symbols) && betAmount > 0.0 && |drawnSymbols| == NumberOfSpin
    requires forall i :: 0 <= i < |drawnSymbols| ==> drawnSymbols[i] in Names(symbols)
    ensures Winnings(symbols, betAmount, drawnSymbols) > 0.0 <==> AllSame(drawnSymbols)
    ensures AllSame(drawnSymbols) ==>
      (exists s :: s in symbols && s.symbol == drawnSymbols[0]
        && Winnings(symbols, betAmount, drawnSymbols) == betAmount * s.payout)
  {
    var found := Find(symbols, drawnSymbols[0]);
    assert found.Some?;
    assert 0.0 < betAmount * found.value.payout;
  }

  /** For a non-negative bet the net result is never below minus the bet. */
  lemma NetResultAtLeastMinusBet(symbols: seq<Symbol>, betAmount: real, result: SlotResult)
    requires PositivePayouts(symbols) && betAmount >= 0.0
    requires |result.symbols| == NumberOfSpin && result.totalBet == betAmount
    requires result.winnings == Winnings(symbols, betAmount, result.symbols)
    ensures NetResult(result) >= -betAmount
  {
    if AllSame(result.symbols) && Find(symbols, result.symbols[0]).Some? {
      var s := Find(symbols, result.symbols[0]).value;
      assert 0.0 <= betAmount * s.payout;
    }
  }
}
