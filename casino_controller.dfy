/** The casino game routes behind `casinoMiddleware`: the slot machine, the
    roulette and the coin flip. Each settles through `updateUserWallet`. The
    slot and roulette engines live in a services file this model does not
    contain, so their outcomes are inputs; the coin's draw is an input too. */
module CasinoController {
  import opened Wrappers
  import opened Store
  import JsValues
  import MainServices
  import CasinoMiddleware
  import RouletteDto
  import SlotMachineUtil

  // ---------------------------------------------------------------------
  // Slot machine

  datatype SlotReply =
    | SlotPlayed(netProfit: real, updatedWallet: WalletRow)   // 200
    | SlotBadRequest                                          // 400, `updateUserWallet` returned an error

  /** The `/slot-machine` handler, given the net profit the slot engine
      reports for this spin. */
  method PlaySlot(db: Db, data: CasinoMiddleware.GuardResult, netProfit: real) returns (reply: SlotReply)
    requires data.Validated?
    modifies db`wallets
    ensures db.wallets == MainServices.WalletsAfterUpdate(old(db.wallets), data.userId, data.cryptoId, netProfit)
    ensures reply.SlotBadRequest? <==> MainServices.FindWallet(old(db.wallets), data.userId, data.cryptoId).None?
    ensures reply.SlotPlayed? ==>
      && reply.netProfit == netProfit
      && reply.updatedWallet == db.wallets[MainServices.FindWallet(old(db.wallets), data.userId, data.cryptoId).value]
  {
    var updatedWallet := MainServices.UpdateUserWallet(db, data.userId, data.cryptoId, netProfit);
    if updatedWallet.Failure? {
      return SlotBadRequest;
    }
    reply := SlotPlayed(netProfit, updatedWallet.value);
  }

  /** With the slot machine of the casino utilities, a whole-number bet that
      the wallet covers settles exactly: the stored quantity becomes the old
      one plus the net profit, and the clamp at zero never acts. */
  lemma WholeBetSlotSettlesExactly(rows: seq<WalletRow>, userId: string, cryptoId: string,
                                   bet: real, reels: seq<SlotMachineUtil.Symbol>)
    requires MainServices.FindWallet(rows, userId, cryptoId).Some?
    requires var i := MainServices.FindWallet(rows, userId, cryptoId).value; 0.0 <= bet <= rows[i].quantity
    requires bet == bet.Floor as real && |reels| > 0 && SlotMachineUtil.FromTable(reels)
    ensures var i := MainServices.FindWallet(rows, userId, cryptoId).value;
      var net := SlotMachineUtil.Evaluate(bet, reels).netProfit as real;
      MainServices.WalletsAfterUpdate(rows, userId, cryptoId, net)[i].quantity == rows[i].quantity + net
  {
    SlotMachineUtil.NetProfitAtLeastMinusBet(bet, reels);
  }

  /** A fractional bet can lose more than its stake once the net profit is
      rounded: a losing spin of 2.6 with 2.6 held reports -3, and only the
      clamp keeps the wallet at zero instead of -0.4. */
  lemma FractionalBetLossIsClamped()
    ensures var reels := [SlotMachineUtil.Symbols[0], SlotMachineUtil.Symbols[1], SlotMachineUtil.Symbols[2]];
      var net := SlotMachineUtil.Evaluate(2.6, reels).netProfit;
      && net == -3
      && MainServices.WalletsAfterUpdate([WalletRow(0, "u", "btc", 2.6)], "u", "btc", net as real)
         == [WalletRow(0, "u", "btc", 0.0)]
  {
    var reels := [SlotMachineUtil.Symbols[0], SlotMachineUtil.Symbols[1], SlotMachineUtil.Symbols[2]];
    var names := SlotMachineUtil.Names(reels);
    assert names[1] != names[0];
    assert !SlotMachineUtil.AllSame(names);
    assert SlotMachineUtil.CountOf(names[1..][1..], names[0]) == 0;
    assert SlotMachineUtil.CountOf(names[1..], names[0]) == 0;
    assert SlotMachineUtil.WinAmount(2.6, reels) == 0.0;
  }

  // ---------------------------------------------------------------------
  // Roulette

  datatype RouletteReply<W> =
    | RoulettePlayed(rouletteResult: W, betChoice: RouletteDto.BetChoice, amountResult: real)   // 200
    | RouletteBadRequest     // 400, no `betChoice` or a failing validation
    | RouletteServerError    // 500, the wheel gave no result
    | PayoutFailed           // 200 with an error message, nothing settled

  /** `plainToInstance(RouletteDTO, { betChoice }).betChoice`: an object
      becomes a `BetChoice` with its `type` and `numbers`; anything else is
      no instance, which the validation refuses. */
  function AsBetChoice(body: JsValues.Value): (choice: Option<RouletteDto.BetChoice>)
    ensures choice.Some? <==> body.Obj?
    ensures choice.Some? ==>
      choice.value == RouletteDto.BetChoice(JsValues.Get(body, "type"), JsValues.Get(body, "numbers"))
  {
    if body.Obj? then Some(RouletteDto.BetChoice(JsValues.Get(body, "type"), JsValues.Get(body, "numbers")))
    else None
  }

  /** As the handlers validate, a body `{ type: t }` without numbers is
      accepted for every bet type, number bets included. */
  lemma BodyWithoutNumbers(t: RouletteDto.BetType)
    ensures var body := JsValues.Obj(map["type" := JsValues.Str(RouletteDto.Name(t))]);
      RouletteDto.ValidateBetChoice(AsBetChoice(body)) == []
  {
    var body := JsValues.Obj(map["type" := JsValues.Str(RouletteDto.Name(t))]);
    assert AsBetChoice(body).value.numbers == JsValues.Undefined;
    RouletteDto.ParseName(t);
  }

  /** As the handlers validate, a split body on two numbers is refused. */
  lemma TwoNumberSplitBodyRefused()
    ensures var body := JsValues.Obj(map["type" := JsValues.Str("Split"),
                                         "numbers" := JsValues.Arr([JsValues.Num(1.0), JsValues.Num(2.0)])]);
      RouletteDto.ValidateBetChoice(AsBetChoice(body)) != []
  {
    var body := JsValues.Obj(map["type" := JsValues.Str("Split"),
                                 "numbers" := JsValues.Arr([JsValues.Num(1.0), JsValues.Num(2.0)])]);
    assert AsBetChoice(body).value == RouletteDto.BetChoice(JsValues.Str("Split"), JsValues.Arr([JsValues.Num(1.0), JsValues.Num(2.0)]));
    RouletteDto.AsWrittenRejectsTwoNumberSplit();
  }

  /** With the validation the groups intend, a body `{ type: t }` without
      numbers is refused for every number bet and accepted for every colour
      bet. */
  lemma IntendedBodyWithoutNumbers(t: RouletteDto.BetType)
    ensures var body := JsValues.Obj(map["type" := JsValues.Str(RouletteDto.Name(t))]);
      RouletteDto.ValidateRouletteDto(AsBetChoice(body)) == [] <==> RouletteDto.IsColour(t)
  {
    var body := JsValues.Obj(map["type" := JsValues.Str(RouletteDto.Name(t))]);
    assert AsBetChoice(body).value.numbers == JsValues.Undefined;
    RouletteDto.ParseName(t);
  }

  /** The `/roulette` handler, given the wheel's result (None when it is
      falsy) and the payout function of the roulette engine. A zero payout is
      falsy and settles nothing; otherwise the payout is the wallet delta. */
  method PlayRoulette<W>(db: Db, data: CasinoMiddleware.GuardResult, betChoice: JsValues.Value,
                         wheel: Option<W>, payout: (RouletteDto.BetChoice, real, W) -> real)
    returns (reply: RouletteReply<W>)
    requires data.Validated?
    modifies db`wallets
    ensures !JsValues.Truthy(betChoice) ==> reply == RouletteBadRequest
    ensures reply.RouletteBadRequest? <==>
      !JsValues.Truthy(betChoice) || RouletteDto.ValidateBetChoice(AsBetChoice(betChoice)) != []
    ensures reply.RoulettePlayed? <==>
      && JsValues.Truthy(betChoice) && RouletteDto.ValidateBetChoice(AsBetChoice(betChoice)) == []
      && wheel.Some? && payout(AsBetChoice(betChoice).value, data.betInt, wheel.value) != 0.0
    ensures reply.RoulettePlayed? ==>
      && reply.betChoice == AsBetChoice(betChoice).value
      && RouletteDto.ValidateAsWritten(reply.betChoice) == []
      && reply.rouletteResult == wheel.value
      && reply.amountResult == payout(reply.betChoice, data.betInt, wheel.value)
      && db.wallets == MainServices.WalletsAfterUpdate(old(db.wallets), data.userId, data.cryptoId, reply.amountResult)
    ensures !reply.RoulettePlayed? ==> db.wallets == old(db.wallets)
  {
    if !JsValues.Truthy(betChoice) {
      return RouletteBadRequest;
    }
    var validatedBetChoice := AsBetChoice(betChoice);
    if RouletteDto.ValidateBetChoice(validatedBetChoice) != [] {
      return RouletteBadRequest;
    }
    if wheel.None? {
      return RouletteServerError;
    }
    var amountResult := payout(validatedBetChoice.value, data.betInt, wheel.value);
    if amountResult == 0.0 {
      return PayoutFailed;
    }
    var _ := MainServices.UpdateUserWallet(db, data.userId, data.cryptoId, amountResult);
    reply := RoulettePlayed(wheel.value, validatedBetChoice.value, amountResult);
  }

  // ---------------------------------------------------------------------
  // Coin flip

  datatype CoinFlipReply =
    | CoinFlipped(result: string, payout: real, won: bool, newBalance: real)   // 200
    | CoinFlipBadRequest     // 400, the choice is neither "heads" nor "tails"
    | CoinFlipServerError    // 500, no wallet for the crypto when the balance is read

  /** `["heads", "tails"].includes(betChoice)`, truthiness included. */
  predicate ValidSide(betChoice: JsValues.Value)
  {
    betChoice == JsValues.Str("heads") || betChoice == JsValues.Str("tails")
  }

  /** `Math.random() < 0.5 ? "heads" : "tails"`, for the draw `u`. */
  function Toss(u: real): (side: string)
    ensures side == "heads" <==> u < 0.5
    ensures side == "heads" || side == "tails"
  {
    if u < 0.5 then "heads" else "tails"
  }

  /** The payout: twice the bet on a win, nothing on a loss. */
  function CoinPayout(won: bool, bet: real): (p: real)
    ensures won ==> p == 2.0 * bet
    ensures !won ==> p == 0.0
  {
    if won then bet * 2.0 else 0.0
  }

  /** The `/coin-flip` handler for the draw `u` in [0, 1). */
  method PlayCoinFlip(db: Db, data: CasinoMiddleware.GuardResult, betChoice: JsValues.Value, u: real)
    returns (reply: CoinFlipReply)
    requires data.Validated?
    modifies db`wallets
    ensures !ValidSide(betChoice) ==> reply == CoinFlipBadRequest && db.wallets == old(db.wallets)
    ensures ValidSide(betChoice) ==>
      var won := JsValues.Str(Toss(u)) == betChoice;
      db.wallets == MainServices.WalletsAfterUpdate(old(db.wallets), data.userId, data.cryptoId,
                                                    CoinPayout(won, data.betInt) - data.betInt)
    ensures ValidSide(betChoice) ==>
      (reply.CoinFlipServerError? <==> MainServices.FindWallet(old(db.wallets), data.userId, data.cryptoId).None?)
    ensures ValidSide(betChoice) ==>
      (reply.CoinFlipped? <==> MainServices.FindWallet(old(db.wallets), data.userId, data.cryptoId).Some?)
    ensures reply.CoinFlipped? ==>
      var i := MainServices.FindWallet(old(db.wallets), data.userId, data.cryptoId).value;
      && reply.result == Toss(u)
      && (reply.won <==> JsValues.Str(Toss(u)) == betChoice)
      && reply.payout == CoinPayout(reply.won, data.betInt)
      && reply.newBalance == old(db.wallets)[i].quantity + (reply.payout - data.betInt)
  {
    if !JsValues.Truthy(betChoice) || !ValidSide(betChoice) {
      return CoinFlipBadRequest;
    }
    var result := Toss(u);
    var won := JsValues.Str(result) == betChoice;
    var payout := CoinPayout(won, data.betInt);
    var userWallet := MainServices.GetUserWallet(db.wallets, data.userId);
    var selectedCrypto := MainServices.FindCrypto(userWallet, data.cryptoId);
    MainServices.FindCryptoAgreesWithFindWallet(db.wallets, data.userId, data.cryptoId);
    var _ := MainServices.UpdateUserWallet(db, data.userId, data.cryptoId, payout - data.betInt);
    if selectedCrypto.None? {
      return CoinFlipServerError;
    }
    reply := CoinFlipped(result, payout, won, selectedCrypto.value.quantity + (payout - data.betInt));
  }

  /** A coin flip moves the wallet by exactly plus or minus the bet, and when
      the wallet covers the bet (as the middleware ensures) the stored
      quantity is the balance the handler reports. */
  lemma CoinFlipSettlesExactly(rows: seq<WalletRow>, userId: string, cryptoId: string,
                               bet: real, won: bool)
    requires MainServices.FindWallet(rows, userId, cryptoId).Some?
    requires var i := MainServices.FindWallet(rows, userId, cryptoId).value; 0.0 < bet <= rows[i].quantity
    ensures var i := MainServices.FindWallet(rows, userId, cryptoId).value;
      var delta := CoinPayout(won, bet) - bet;
      && (won ==> delta == bet) && (!won ==> delta == -bet)
      && MainServices.WalletsAfterUpdate(rows, userId, cryptoId, delta)[i].quantity == rows[i].quantity + delta
  {
  }

  /** The coin is fair in the sense of the draw: a heads bet wins exactly on
      the lower half of [0, 1) and a tails bet on the upper half. */
  lemma CoinFlipWinsOnItsHalf(u: real, betChoice: JsValues.Value)
    requires ValidSide(betChoice)
    ensures (JsValues.Str(Toss(u)) == betChoice) <==>
      (if betChoice == JsValues.Str("heads") then u < 0.5 else u >= 0.5)
  {
  }
}
