/** `casinoMiddleware`: the guard chain in front of every casino game. It
    checks the token, the bet and crypto query parameters, the bet's DTO and
    the wallet balance, and either rejects the request or hands the game
    `validatedData`. It reads the wallet table and writes nothing. */
module CasinoMiddleware {
  import opened Wrappers
  import opened Store
  import JsStrings
  import JsValues
  import SlotMachineDto
  import ClassValidator
  import MainServices

  /** `header?.split(" ")[1]`, kept only when truthy: the piece after the
      first space, up to the next one. */
  function TokenAfterSpace(header: Option<string>): (token: Option<string>)
    ensures token.Some? <==>
      header.Some? && |JsStrings.Split(header.value, ' ')| >= 2 && JsStrings.Split(header.value, ' ')[1] != ""
    ensures token.Some? ==> token.value == JsStrings.Split(header.value, ' ')[1] && ' ' !in token.value
  {
    if header.None? then None
    else
      var parts := JsStrings.Split(header.value, ' ');
      if |parts| < 2 || parts[1] == "" then None else Some(parts[1])
  }

  /** `Bearer <token>` yields the token, for a space-free non-empty token. */
  lemma TokenAfterBearer(scheme: string, token: string)
    requires ' ' !in scheme && ' ' !in token && token != ""
    ensures TokenAfterSpace(Some(scheme + " " + token)) == Some(token)
  {
    assert scheme + " " + token == scheme + [' '] + token;
    JsStrings.SplitAtOneSeparator(scheme, ' ', token);
  }

  /** What `getUserID(token)` gives: the `id` claim of the verified token,
      no `id` claim, or a verification error (thrown, so a 500). */
  datatype Identity = Identified(id: string) | NoUserId | VerifyFails

  /** The result of `parseFloat`. */
  datatype JsNumber = Finite(x: real) | NotANumber | PosInfinity | NegInfinity

  /** The prefix every token-protected route shares: take the token after
      the first space (401 without one), verify it (500 when that throws)
      and read its user id (401 when it has none). */
  function TokenUser(authorization: Option<string>, identify: string -> Identity): (r: Result<string, nat>)
    ensures r.Success? <==>
      TokenAfterSpace(authorization).Some?
      && identify(TokenAfterSpace(authorization).value).Identified?
      && identify(TokenAfterSpace(authorization).value).id != ""
    ensures r.Success? ==> r.value == identify(TokenAfterSpace(authorization).value).id
    ensures r.Failure? ==> r.error == 401 || r.error == 500
    ensures r.Failure? && r.error == 500 <==>
      TokenAfterSpace(authorization).Some? && identify(TokenAfterSpace(authorization).value).VerifyFails?
  {
    match TokenAfterSpace(authorization)
    case None => Failure(401)
    case Some(token) =>
      match identify(token)
      case VerifyFails => Failure(500)
      case NoUserId => Failure(401)
      case Identified(userId) => if userId == "" then Failure(401) else Success(userId)
  }

  datatype GuardResult =
    | Validated(userId: string, betInt: real, cryptoId: string)   // `req.validatedData` set, `next()` called
    | Rejected(status: nat)

  /** The bet as the DTO sees it. */
  function BetValue(n: JsNumber): JsValues.Value
  {
    match n
    case Finite(x) => JsValues.Num(x)
    case NotANumber => JsValues.NaN
    case PosInfinity => JsValues.Infinity(false)
    case NegInfinity => JsValues.Infinity(true)
  }

  /** The guard chain, on the token header, the token verification, the
      `bet` and `cryptoId` query parameters, `parseFloat`, and the wallet
      table as it is when the request arrives. */
  function Guard(authorization: Option<string>, identify: string -> Identity,
                 bet: Option<string>, cryptoId: Option<string>,
                 parseFloat: string -> JsNumber, wallets: seq<WalletRow>): (g: GuardResult)
    ensures TokenAfterSpace(authorization).None? ==> g == Rejected(401)
    ensures g.Validated? ==>
      && TokenAfterSpace(authorization).Some?
      && identify(TokenAfterSpace(authorization).value) == Identified(g.userId)
      && bet.Some? && parseFloat(bet.value) == Finite(g.betInt)
      && cryptoId == Some(g.cryptoId)
      && 0.0 < g.betInt
      && ClassValidator.UuidV4(g.userId) && g.cryptoId != ""
      && ClassValidator.ValidatorLength(g.cryptoId) >= 1
      && MainServices.FindCrypto(MainServices.GetUserWallet(wallets, g.userId), g.cryptoId).Some?
      && g.betInt <= MainServices.FindCrypto(MainServices.GetUserWallet(wallets, g.userId), g.cryptoId).value.quantity
    ensures g.Rejected? ==> g.status in {400, 401, 500}
    ensures TokenUser(authorization, identify).Success?
            && (bet.None? || bet.value == "" || cryptoId.None? || cryptoId.value == "") ==>
      g == Rejected(400)
    ensures g.Validated? <==>
      && TokenUser(authorization, identify).Success?
      && bet.Some? && bet.value != "" && cryptoId.Some? && cryptoId.value != ""
      && parseFloat(bet.value).Finite? && 0.0 < parseFloat(bet.value).x
      && ClassValidator.UuidV4(TokenUser(authorization, identify).value)
      && ClassValidator.ValidatorLength(cryptoId.value) >= 1
      && var found := MainServices.FindCrypto(
           MainServices.GetUserWallet(wallets, TokenUser(authorization, identify).value), cryptoId.value);
         found.Some? && parseFloat(bet.value).x <= found.value.quantity
  {
    match TokenUser(authorization, identify)
    case Failure(status) => Rejected(status)
    case Success(userId) =>
      if bet.None? || bet.value == "" || cryptoId.None? || cryptoId.value == "" then Rejected(400)
      else
        var betInt := parseFloat(bet.value);
        if betInt.NotANumber? || (betInt.Finite? && betInt.x <= 0.0) || betInt.NegInfinity? then Rejected(400)
        else
          var validated := SlotMachineDto.SlotMachinePost(JsValues.Str(userId), BetValue(betInt), JsValues.Str(cryptoId.value));
          SlotMachineDto.ValidIffAllConstraints(validated);
          if SlotMachineDto.Validate(validated) != [] then Rejected(400)
          else
            match MainServices.FindCrypto(MainServices.GetUserWallet(wallets, userId), cryptoId.value)
            case None => Rejected(400)
            case Some(selectedCrypto) =>
              if betInt.PosInfinity? || selectedCrypto.quantity < betInt.x then Rejected(400)
              else Validated(userId, betInt.x, cryptoId.value)
  }

  /** Without a token nothing else is consulted: the outcome is 401 whatever
      the verification, the parameters and the wallets. */
  lemma MissingTokenShortCircuits(authorization: Option<string>,
                                  identify1: string -> Identity, identify2: string -> Identity,
                                  bet1: Option<string>, bet2: Option<string>,
                                  cryptoId1: Option<string>, cryptoId2: Option<string>,
                                  parseFloat1: string -> JsNumber, parseFloat2: string -> JsNumber,
                                  wallets1: seq<WalletRow>, wallets2: seq<WalletRow>)
    requires TokenAfterSpace(authorization).None?
    ensures Guard(authorization, identify1, bet1, cryptoId1, parseFloat1, wallets1)
         == Guard(authorization, identify2, bet2, cryptoId2, parseFloat2, wallets2)
         == Rejected(401)
  {
  }

  /** A bet that is not a number, or is not positive, is refused with 400. */
  lemma BadBetRejected(authorization: Option<string>, identify: string -> Identity,
                       bet: string, cryptoId: Option<string>,
                       parseFloat: string -> JsNumber, wallets: seq<WalletRow>)
    requires TokenAfterSpace(authorization).Some?
    requires var id := identify(TokenAfterSpace(authorization).value); id.Identified? && id.id != ""
    requires parseFloat(bet).NotANumber? || parseFloat(bet).NegInfinity?
          || (parseFloat(bet).Finite? && parseFloat(bet).x <= 0.0)
    ensures Guard(authorization, identify, Some(bet), cryptoId, parseFloat, wallets) == Rejected(400)
  {
  }

  /** A well-formed request for a crypto the user holds less of than the bet
      is refused with 400 ("Insufficient funds in wallet"). */
  lemma InsufficientFundsRejected(authorization: Option<string>, identify: string -> Identity,
                                  bet: string, cryptoId: string,
                                  parseFloat: string -> JsNumber, wallets: seq<WalletRow>)
    requires TokenAfterSpace(authorization).Some?
    requires identify(TokenAfterSpace(authorization).value).Identified?
    requires var found := MainServices.FindCrypto(
      MainServices.GetUserWallet(wallets, identify(TokenAfterSpace(authorization).value).id), cryptoId);
      found.Some? && parseFloat(bet).Finite? && found.value.quantity < parseFloat(bet).x
    ensures Guard(authorization, identify, Some(bet), Some(cryptoId), parseFloat, wallets).Rejected?
  {
  }

  /** The guarantee the games rely on: after the guard, the wallet row that
      `updateUserWallet` will write exists and holds at least the bet. */
  lemma ValidatedWalletCoversBet(authorization: Option<string>, identify: string -> Identity,
                                 bet: Option<string>, cryptoId: Option<string>,
                                 parseFloat: string -> JsNumber, wallets: seq<WalletRow>)
    requires Guard(authorization, identify, bet, cryptoId, parseFloat, wallets).Validated?
    ensures var g := Guard(authorization, identify, bet, cryptoId, parseFloat, wallets);
      var i := MainServices.FindWallet(wallets, g.userId, g.cryptoId);
      i.Some? && 0.0 < g.betInt <= wallets[i.value].quantity
  {
    var g := Guard(authorization, identify, bet, cryptoId, parseFloat, wallets);
    MainServices.FindCryptoAgreesWithFindWallet(wallets, g.userId, g.cryptoId);
  }
}
