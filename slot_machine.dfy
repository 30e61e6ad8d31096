/** The slot machine of the casino utilities: a seven-symbol table, three
    independent weighted draws, and the evaluation of the reels into a win
    amount and a rounded net profit. */
module SlotMachineUtil {
  import opened JsMath
  import WeightedChoice

  datatype Symbol = Symbol(symbol: string, weight: real, value: real)

  datatype SlotResult = SlotResult(drawnSymbols: seq<string>, winAmount: int, totalBet: real, netProfit: int)

  const NumberOfSpin: nat := 3

  /** Grapes, tangerine, lemon, watermelon, slot machine, cherries, gem. */
  const Symbols: seq<Symbol> := [
    Symbol("\U{1F347}", 0.40, 1.5),
    Symbol("\U{1F34A}", 0.30, 2.0),
    Symbol("\U{1F34B}", 0.15, 3.0),
    Symbol("\U{1F349}", 0.10, 3.5),
    Symbol("\U{1F3B0}", 0.03, 4.0),
    Symbol("\U{1F352}", 0.015, 10.0),
    Symbol("\U{1F48E}", 0.005, 15.0)
  ]

  function Weights(symbols: seq<Symbol>): (ws: seq<real>)
    ensures |ws| == |symbols|
    ensures forall i :: 0 <= i < |symbols| ==> ws[i] == symbols[i].weight
  {
    seq(|symbols|, i requires 0 <= i < |symbols| => symbols[i].weight)
  }

  /** `item` is what `weightedRandom` gives for the uniform draw `u`: the first
      symbol whose cumulative weight exceeds `u * totalWeight`, else the first. */
  ghost predicate DrawnBy(symbols: seq<Symbol>, u: real, item: Symbol)
    requires |symbols| > 0
  {
    var ws := Weights(symbols);
    var r := WeightedChoice.ScaledDraw(u, WeightedChoice.Sum(ws));
    && (forall i: nat :: WeightedChoice.FirstAbove(ws, r, i) ==> item == symbols[i])
    && (WeightedChoice.NoneAbove(ws, r) ==> item == symbols[0])
  }

  method WeightedRandom(symbols: seq<Symbol>, u: real) returns (item: Symbol)
    requires |symbols| > 0
    ensures item in symbols
    ensures DrawnBy(symbols, u, item)
  {
    var ws := Weights(symbols);
    var totalWeight := WeightedChoice.Sum(ws);
    var random := WeightedChoice.ScaledDraw(u, totalWeight);
    var pick := WeightedChoice.SubtractiveWalk(ws, random);
    if pick.Some? {
      item := symbols[pick.value];
      forall i: nat | WeightedChoice.FirstAbove(ws, random, i)
        ensures item == symbols[i]
      {
        WeightedChoice.FirstAboveUnique(ws, random, i, pick.value);
      }
      assert WeightedChoice.Prefix(ws, pick.value + 1) > random;
    } else {
      item := symbols[0];
    }
  }

  /** For a uniform draw in [0, 1) over non-negative weights, the symbol
      returned is the one whose cumulative-weight interval
      [Prefix(i), Prefix(i + 1)) holds the scaled draw. */
  lemma DrawnSymbolOwnsInterval(symbols: seq<Symbol>, u: real, item: Symbol, i: nat)
    requires |symbols| > 0 && WeightedChoice.NonNegative(Weights(symbols)) && 0.0 <= u < 1.0
    requires DrawnBy(symbols, u, item) && i < |symbols|
    requires var ws := Weights(symbols);
      var r := WeightedChoice.ScaledDraw(u, WeightedChoice.Sum(ws));
      WeightedChoice.Prefix(ws, i) <= r < WeightedChoice.Prefix(ws, i + 1)
    ensures item == symbols[i]
  {
    var ws := Weights(symbols);
    var r := WeightedChoice.ScaledDraw(u, WeightedChoice.Sum(ws));
    WeightedChoice.PrefixAll(ws);
    WeightedChoice.PrefixMonotone(ws, 0, |ws|);
    assert 0.0 <= r;
    WeightedChoice.FirstAboveIsInterval(ws, r, i);
  }

  /** With a positive total weight the fallback to the first symbol is never
      taken: some symbol's interval holds the draw. */
  lemma DrawNeverFallsBack(symbols: seq<Symbol>, u: real)
    requires |symbols| > 0 && 0.0 <= u < 1.0 && WeightedChoice.Sum(Weights(symbols)) > 0.0
    ensures !WeightedChoice.NoneAbove(Weights(symbols),
      WeightedChoice.ScaledDraw(u, WeightedChoice.Sum(Weights(symbols))))
  {
    var ws := Weights(symbols);
    WeightedChoice.DrawBelowTotalIsCovered(ws, WeightedChoice.ScaledDraw(u, WeightedChoice.Sum(ws)));
  }

  function Names(reels: seq<Symbol>): (names: seq<string>)
    ensures |names| == |reels|
    ensures forall i :: 0 <= i < |reels| ==> names[i] == reels[i].symbol
  {
    seq(|reels|, i requires 0 <= i < |reels| => reels[i].symbol)
  }

  /** `names.filter(s => s === x).length`. */
  function CountOf(names: seq<string>, x: string): nat
  {
    if names == [] then 0 else (if names[0] == x then 1 else 0) + CountOf(names[1..], x)
  }

  /** `names.every(s => s === names[0])`. */
  predicate AllSame(names: seq<string>)
    requires |names| > 0
  {
    forall i :: 0 <= i < |names| ==> names[i] == names[0]
  }

  /** The win before rounding: double the first reel's value on three of a
      kind, its value when at least two reels equal the first, else nothing. */
  function WinAmount(betAmount: real, reels: seq<Symbol>): real
    requires |reels| > 0
  {
    var names := Names(reels);
    if AllSame(names) then betAmount * reels[0].value * 2.0
    else if CountOf(names, names[0]) >= 2 then betAmount * reels[0].value
    else 0.0
  }

  /** The object the machine returns for the given reels. */
  function Evaluate(betAmount: real, reels: seq<Symbol>): SlotResult
    requires |reels| > 0
  {
    var win := WinAmount(betAmount, reels);
    SlotResult(Names(reels), Round(win), betAmount, Round(win - betAmount))
  }

  /** The draw loop: one weighted draw per reel, collecting both the drawn
      symbols and their names. */
  method SpinReels(symbols: seq<Symbol>, draws: seq<real>) returns (drawnSymbols: seq<string>, drawnSymbolDetails: seq<Symbol>)
    requires |symbols| > 0
    ensures |drawnSymbolDetails| == |draws|
    ensures forall i :: 0 <= i < |draws| ==>
      drawnSymbolDetails[i] in symbols && DrawnBy(symbols, draws[i], drawnSymbolDetails[i])
    ensures drawnSymbols == Names(drawnSymbolDetails)
  {
    drawnSymbols := [];
    drawnSymbolDetails := [];
    for i := 0 to |draws|
      invariant |drawnSymbols| == i && |drawnSymbolDetails| == i
      invariant forall k :: 0 <= k < i ==>
        drawnSymbolDetails[k] in symbols && DrawnBy(symbols, draws[k], drawnSymbolDetails[k])
      invariant forall k :: 0 <= k < i ==> drawnSymbols[k] == drawnSymbolDetails[k].symbol
    {
      var drawnSymbol := WeightedRandom(symbols, draws[i]);
      ghost var prevSymbols, prevDetails := drawnSymbols, drawnSymbolDetails;
      drawnSymbols := drawnSymbols + [drawnSymbol.symbol];
      drawnSymbolDetails := drawnSymbolDetails + [drawnSymbol];
      forall k | 0 <= k <= i
        ensures drawnSymbolDetails[k] in symbols && DrawnBy(symbols, draws[k], drawnSymbolDetails[k])
        ensures drawnSymbols[k] == drawnSymbolDetails[k].symbol
      {
        if k < i {
          assert drawnSymbolDetails[k] == prevDetails[k] && drawnSymbols[k] == prevSymbols[k];
        }
      }
    }
  }

  /** `SlotMachine(betAmount)`: spin the three reels over the table, then
      evaluate them. */
  method SlotMachine(betAmount: real, draws: seq<real>) returns (result: SlotResult, drawnSymbolDetails: seq<Symbol>)
    requires |draws| == NumberOfSpin
    ensures |drawnSymbolDetails| == NumberOfSpin
    ensures FromTable(drawnSymbolDetails)
    ensures forall i :: 0 <= i < NumberOfSpin ==> DrawnBy(Symbols, draws[i], drawnSymbolDetails[i])
    ensures result == Evaluate(betAmount, drawnSymbolDetails)
  {
    var drawnSymbols;
    drawnSymbols, drawnSymbolDetails := SpinReels(Symbols, draws);
    result := Evaluate(betAmount, drawnSymbolDetails);
  }

  // ---------------------------------------------------------------------
  // Properties of the table and of the evaluation.

  predicate FromTable(reels: seq<Symbol>)
  {
    forall i :: 0 <= i < |reels| ==> reels[i] in Symbols
  }

  /** The weights are a probability distribution and the multipliers lie in [1.5, 15]. */
  lemma TableShape()
    ensures WeightedChoice.Sum(Weights(Symbols)) == 1.0
    ensures forall s :: s in Symbols ==> 1.5 <= s.value <= 15.0 && s.weight > 0.0
  {
    var ws := Weights(Symbols);
    assert ws == [0.40, 0.30, 0.15, 0.10, 0.03, 0.015, 0.005];
    assert WeightedChoice.Prefix(ws, 0) == 0.0;
    WeightedChoice.PrefixStep(ws, 0);
    WeightedChoice.PrefixStep(ws, 1);
    WeightedChoice.PrefixStep(ws, 2);
    WeightedChoice.PrefixStep(ws, 3);
    WeightedChoice.PrefixStep(ws, 4);
    WeightedChoice.PrefixStep(ws, 5);
    WeightedChoice.PrefixStep(ws, 6);
    WeightedChoice.PrefixAll(ws);
  }

  /** Symbols are told apart by their names, so comparing drawn names is
      comparing drawn symbols. */
  lemma TableNamesDistinct()
    ensures forall i, j :: 0 <= i < j < |Symbols| ==> Symbols[i].symbol != Symbols[j].symbol
  {
  }

  /** On three reels the win is the bet times the first reel's value times the
      number of other reels showing the first reel's symbol. */
  lemma WinCountsMatchesOfReelZero(betAmount: real, reels: seq<Symbol>)
    requires |reels| == 3
    ensures var m := (if reels[1].symbol == reels[0].symbol then 1.0 else 0.0)
                   + (if reels[2].symbol == reels[0].symbol then 1.0 else 0.0);
            WinAmount(betAmount, reels) == betAmount * reels[0].value * m
  {
    var names := Names(reels);
    assert names[1..][1..][1..] == [];
    assert CountOf(names[1..][1..], names[0]) == (if names[2] == names[0] then 1 else 0);
    assert CountOf(names[1..], names[0]) == (if names[1] == names[0] then 1 else 0)
      + (if names[2] == names[0] then 1 else 0);
    assert AllSame(names) <==> names[1] == names[0] && names[2] == names[0];
  }

  /** Three of a kind pays twice the symbol's value. */
  lemma ThreeOfAKindPaysDouble(betAmount: real, s: Symbol)
    ensures WinAmount(betAmount, [s, s, s]) == betAmount * s.value * 2.0
  {
    WinCountsMatchesOfReelZero(betAmount, [s, s, s]);
  }

  /** Reels [A, B, B] pay nothing: only matches with the first reel count. */
  lemma PairAwayFromReelZeroPaysNothing(betAmount: real, a: Symbol, b: Symbol)
    requires a.symbol != b.symbol
    ensures WinAmount(betAmount, [a, b, b]) == 0.0
  {
    WinCountsMatchesOfReelZero(betAmount, [a, b, b]);
  }

  /** For a non-negative bet on table symbols the win lies in [0, 30 * bet]. */
  lemma WinBounds(betAmount: real, reels: seq<Symbol>)
    requires betAmount >= 0.0 && |reels| > 0 && FromTable(reels)
    ensures 0.0 <= WinAmount(betAmount, reels) <= 30.0 * betAmount
  {
    TableShape();
    assert reels[0] in Symbols;
    var v := reels[0].value;
    assert 0.0 <= betAmount * v <= betAmount * 15.0;
  }

  /** The rounded net profit never falls below the rounded loss of the stake,
      and for a whole-number bet it is at least minus the bet. */
  lemma NetProfitAtLeastMinusBet(betAmount: real, reels: seq<Symbol>)
    requires betAmount >= 0.0 && |reels| > 0 && FromTable(reels)
    ensures Evaluate(betAmount, reels).netProfit >= Round(-betAmount)
    ensures betAmount == betAmount.Floor as real ==> Evaluate(betAmount, reels).netProfit >= -betAmount.Floor
  {
    WinBounds(betAmount, reels);
    RoundMonotone(-betAmount, WinAmount(betAmount, reels) - betAmount);
    RoundOfInteger(-betAmount.Floor);
  }
}
