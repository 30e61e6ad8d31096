/** The legacy market router's `/buy/:coin` and `/sell/:coin`: validate a
    `WalletDTO` built from the token's user id, the coin and the body's
    quantity, then move the wallet by plus or minus that quantity through
    `updateUserWallet`. Neither route looks at the price or at money. Its
    `/top-movers` is the same sort and slice as `MarketController.TopMovers`. */
module LegacyMarketController {
  import opened Wrappers
  import opened Store
  import opened JsValues
  import WalletDto
  import MainServices
  import MarketController
  import CasinoMiddleware

  /** `plainToInstance(WalletDTO, { userId, cryptoId: coinId, quantity })`;
      an absent `id` claim is `undefined`. */
  function Body(caller: Option<string>, coinId: string, body: Value): WalletDto.WalletBody
  {
    WalletDto.WalletBody(if caller.Some? then Str(caller.value) else Undefined, Str(coinId), Get(body, "quantity"))
  }

  datatype TradeReply =
    | TradeDenied(status: nat)          // 401 or 500 from the token
    | InvalidBody(errors: seq<string>)  // 400 with the failing properties
    | WalletMissing                     // 400 with "Wallet not found"
    | Unrepresentable                   // a wallet of +Infinity, see README
    | Traded(wallet: WalletRow)

  /** The wallet delta of a validated finite quantity. */
  function Delta(n: real, sell: bool): (d: real)
    ensures sell ==> d == -n
    ensures !sell ==> d == n
  {
    if sell then -n else n
  }

  /** `/buy/:coin` (`sell` false) and `/sell/:coin` (`sell` true). */
  method Trade(db: Db, authorization: Option<string>, identify: string -> CasinoMiddleware.Identity,
               coinId: string, body: Value, sell: bool)
    returns (reply: TradeReply)
    modifies db`wallets
    ensures db.money == old(db.money)
    ensures MarketController.Caller(authorization, identify).Failure? ==>
      reply == TradeDenied(MarketController.Caller(authorization, identify).error) && db.wallets == old(db.wallets)
    ensures MarketController.Caller(authorization, identify).Success? ==>
      var caller := MarketController.Caller(authorization, identify).value;
      var errors := WalletDto.Validate(Body(caller, coinId, body));
      var q := Get(body, "quantity");
      && (errors != [] ==> reply == InvalidBody(errors) && db.wallets == old(db.wallets))
      && (errors == [] && q.Num? ==>
            var userId := caller.value;
            && db.wallets == MainServices.WalletsAfterUpdate(old(db.wallets), userId, coinId, Delta(q.n, sell))
            && (reply == WalletMissing <==> MainServices.FindWallet(old(db.wallets), userId, coinId).None?)
            && (reply.Traded? <==> MainServices.FindWallet(old(db.wallets), userId, coinId).Some?)
            && (reply.Traded? ==>
                  reply.wallet == db.wallets[MainServices.FindWallet(old(db.wallets), userId, coinId).value]))
      && (errors == [] && !q.Num? && sell ==>
            var userId := caller.value;
            && (reply == WalletMissing <==> MainServices.FindWallet(old(db.wallets), userId, coinId).None?)
            && (reply.Traded? <==> MainServices.FindWallet(old(db.wallets), userId, coinId).Some?)
            && (reply.Traded? ==>
                  var i := MainServices.FindWallet(old(db.wallets), userId, coinId).value;
                  && db.wallets == old(db.wallets)[i := old(db.wallets)[i].(quantity := 0.0)]
                  && reply.wallet == db.wallets[i]))
      && (errors == [] && !q.Num? && !sell ==> reply == Unrepresentable && db.wallets == old(db.wallets))
  {
    var caller := MarketController.Caller(authorization, identify);
    if caller.Failure? {
      return TradeDenied(caller.error);
    }
    var dto := Body(caller.value, coinId, body);
    var errors := WalletDto.Validate(dto);
    if errors != [] {
      return InvalidBody(errors);
    }
    WalletDto.ValidIffAllConstraints(dto);
    var userId := dto.userId.s;
    var quantity := dto.quantity;
    var updated: Result<WalletRow, string>;
    if quantity.Num? {
      updated := MainServices.UpdateUserWallet(db, userId, coinId, Delta(quantity.n, sell));
    } else if sell {
      // `-Infinity` clamps to zero whatever the holding.
      var wallet := MainServices.FindWallet(db.wallets, userId, coinId);
      if wallet.None? {
        return WalletMissing;
      }
      updated := MainServices.UpdateUserWallet(db, userId, coinId, -db.wallets[wallet.value].quantity);
    } else {
      return Unrepresentable;
    }
    if updated.Failure? {
      return WalletMissing;
    }
    reply := Traded(updated.value);
  }

  /** A zero or negative quantity is refused by the DTO, whoever calls. */
  lemma NonPositiveQuantityRefused(caller: Option<string>, coinId: string, body: Value)
    requires Get(body, "quantity").Num? && Get(body, "quantity").n <= 0.0
    ensures "quantity" in WalletDto.Validate(Body(caller, coinId, body))
  {
    WalletDto.NonPositiveQuantityRejected(Body(caller, coinId, body));
  }

  /** A token without a user id is refused by the DTO. */
  lemma MissingUserIdRefused(coinId: string, body: Value)
    ensures "userId" in WalletDto.Validate(Body(None, coinId, body))
  {
  }

  /** A buy adds exactly the quantity to a non-negative holding: the clamp
      never acts. */
  lemma BuyAddsExactly(rows: seq<WalletRow>, userId: string, coinId: string, n: real)
    requires MainServices.AllNonNegative(rows) && n > 0.0
    requires MainServices.FindWallet(rows, userId, coinId).Some?
    ensures var i := MainServices.FindWallet(rows, userId, coinId).value;
      MainServices.WalletsAfterUpdate(rows, userId, coinId, Delta(n, false))[i].quantity == rows[i].quantity + n
  {
    MainServices.ClampOnlyOnOverdraw(rows, userId, coinId, n);
  }

  /** Selling more than the holding empties it instead of going negative;
      selling at most the holding takes exactly the quantity. */
  lemma SellClampsAtZero(rows: seq<WalletRow>, userId: string, coinId: string, n: real)
    requires MainServices.FindWallet(rows, userId, coinId).Some?
    ensures var i := MainServices.FindWallet(rows, userId, coinId).value;
      var after := MainServices.WalletsAfterUpdate(rows, userId, coinId, Delta(n, true))[i].quantity;
      && (n > rows[i].quantity ==> after == 0.0)
      && (n <= rows[i].quantity ==> after == rows[i].quantity - n)
  {
    MainServices.ClampOnlyOnOverdraw(rows, userId, coinId, -n);
  }
}
