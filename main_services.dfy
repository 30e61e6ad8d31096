/** The shared wallet and money services: the lookup of a user's wallets,
    the clamped wallet update every game settles through, and the money
    increment. */
module MainServices {
  import opened Wrappers
  import opened Store
  import JsMath

  predicate Matches(row: WalletRow, userId: string, cryptoId: string)
  {
    row.userId == userId && row.cryptoId == cryptoId
  }

  /** `prisma.wallet.findFirst({ where: { userId, cryptoId } })`: the index of
      the first matching row. */
  function FindWallet(rows: seq<WalletRow>, userId: string, cryptoId: string): (i: Option<nat>)
    ensures i.Some? ==> i.value < |rows| && Matches(rows[i.value], userId, cryptoId)
    ensures i.Some? ==> forall j :: 0 <= j < i.value ==> !Matches(rows[j], userId, cryptoId)
    ensures i.None? <==> forall j :: 0 <= j < |rows| ==> !Matches(rows[j], userId, cryptoId)
  {
    if rows == [] then None
    else if Matches(rows[0], userId, cryptoId) then Some(0)
    else
      match FindWallet(rows[1..], userId, cryptoId)
      case None => None
      case Some(k) => Some(k + 1)
  }

  /** `getUserWallet(userId)`: the user's rows, in table order. */
  function GetUserWallet(rows: seq<WalletRow>, userId: string): (mine: seq<WalletRow>)
    ensures |mine| <= |rows|
    ensures forall r :: r in mine <==> r in rows && r.userId == userId
  {
    if rows == [] then []
    else (if rows[0].userId == userId then [rows[0]] else []) + GetUserWallet(rows[1..], userId)
  }

  /** `wallets.find(c => c.cryptoId === cryptoId)`. */
  function FindCrypto(mine: seq<WalletRow>, cryptoId: string): (w: Option<WalletRow>)
    ensures w.Some? ==> w.value in mine && w.value.cryptoId == cryptoId
    ensures w.None? <==> forall j :: 0 <= j < |mine| ==> mine[j].cryptoId != cryptoId
  {
    if mine == [] then None
    else if mine[0].cryptoId == cryptoId then Some(mine[0])
    else FindCrypto(mine[1..], cryptoId)
  }

  /** Looking a crypto up in the user's wallet list (as the casino middleware
      and the coin flip do) finds the very row `updateUserWallet` writes. */
  lemma {:induction false} FindCryptoAgreesWithFindWallet(rows: seq<WalletRow>, userId: string, cryptoId: string)
    ensures FindCrypto(GetUserWallet(rows, userId), cryptoId) ==
      (match FindWallet(rows, userId, cryptoId)
       case None => None
       case Some(i) => Some(rows[i]))
  {
    if rows == [] {
      return;
    }
    var tail := rows[1..];
    FindCryptoAgreesWithFindWallet(tail, userId, cryptoId);
    if Matches(rows[0], userId, cryptoId) {
      FirstRowMatches(rows, userId, cryptoId);
    } else {
      FirstRowSkipped(rows, userId, cryptoId);
      if FindWallet(tail, userId, cryptoId).Some? {
        var k := FindWallet(tail, userId, cryptoId).value;
        assert rows[k + 1] == tail[k];
      }
    }
  }

  /** A first row that matches is what both lookups find. */
  lemma FirstRowMatches(rows: seq<WalletRow>, userId: string, cryptoId: string)
    requires rows != [] && Matches(rows[0], userId, cryptoId)
    ensures FindWallet(rows, userId, cryptoId) == Some(0)
    ensures FindCrypto(GetUserWallet(rows, userId), cryptoId) == Some(rows[0])
  {
    UserWalletStep(rows, userId);
    FindCryptoStep(rows[0], GetUserWallet(rows[1..], userId), cryptoId);
  }

  /** A first row that does not match is passed over by both lookups. */
  lemma FirstRowSkipped(rows: seq<WalletRow>, userId: string, cryptoId: string)
    requires rows != [] && !Matches(rows[0], userId, cryptoId)
    ensures FindCrypto(GetUserWallet(rows, userId), cryptoId) == FindCrypto(GetUserWallet(rows[1..], userId), cryptoId)
    ensures FindWallet(rows[1..], userId, cryptoId).None? ==> FindWallet(rows, userId, cryptoId).None?
    ensures FindWallet(rows[1..], userId, cryptoId).Some? ==>
      FindWallet(rows, userId, cryptoId) == Some(FindWallet(rows[1..], userId, cryptoId).value + 1)
  {
    UserWalletStep(rows, userId);
    if rows[0].userId == userId {
      FindCryptoStep(rows[0], GetUserWallet(rows[1..], userId), cryptoId);
    }
  }

  /** One step of `getUserWallet`: the first row, if it is the user's, then the rest. */
  lemma UserWalletStep(rows: seq<WalletRow>, userId: string)
    requires rows != []
    ensures GetUserWallet(rows, userId) ==
      if rows[0].userId == userId then [rows[0]] + GetUserWallet(rows[1..], userId) else GetUserWallet(rows[1..], userId)
  {
    if rows[0].userId != userId {
      assert [] + GetUserWallet(rows[1..], userId) == GetUserWallet(rows[1..], userId);
    }
  }

  /** One step of `find`: the first row if it holds the crypto, else the rest. */
  lemma FindCryptoStep(row: WalletRow, rest: seq<WalletRow>, cryptoId: string)
    ensures FindCrypto([row] + rest, cryptoId) == if row.cryptoId == cryptoId then Some(row) else FindCrypto(rest, cryptoId)
  {
    assert ([row] + rest)[1..] == rest;
  }

  /** `Math.max(0, quantity + delta)`. */
  function ClampedQuantity(quantity: real, delta: real): (q: real)
    ensures q >= 0.0 && q >= quantity + delta
    ensures q == quantity + delta || q == 0.0
    ensures quantity + delta >= 0.0 ==> q == quantity + delta
  {
    JsMath.Max(0.0, quantity + delta)
  }

  /** The wallet table after `updateUserWallet(userId, cryptoId, delta)`, or
      the "Wallet not found" error when no row matches. */
  function ApplyDelta(rows: seq<WalletRow>, userId: string, cryptoId: string, delta: real): (r: Result<seq<WalletRow>, string>)
    ensures r.Failure? <==> FindWallet(rows, userId, cryptoId).None?
    ensures r.Success? ==> |r.value| == |rows|
  {
    match FindWallet(rows, userId, cryptoId)
    case None => Failure("Wallet not found")
    case Some(i) => Success(rows[i := rows[i].(quantity := ClampedQuantity(rows[i].quantity, delta))])
  }

  /** The wallet table once `updateUserWallet` has returned, whether it
      found a row or not. */
  function WalletsAfterUpdate(rows: seq<WalletRow>, userId: string, cryptoId: string, delta: real): seq<WalletRow>
  {
    match ApplyDelta(rows, userId, cryptoId, delta)
    case Success(updated) => updated
    case Failure(_) => rows
  }

  predicate AllNonNegative(rows: seq<WalletRow>)
  {
    forall j :: 0 <= j < |rows| ==> rows[j].quantity >= 0.0
  }

  /** A successful update writes only the first matching row: its quantity
      becomes max(0, old + delta), which is never negative, and every other
      row is untouched. */
  lemma ApplyDeltaWritesOneRow(rows: seq<WalletRow>, userId: string, cryptoId: string, delta: real)
    requires ApplyDelta(rows, userId, cryptoId, delta).Success?
    ensures var i := FindWallet(rows, userId, cryptoId).value;
      var updated := ApplyDelta(rows, userId, cryptoId, delta).value;
      && updated[i].quantity >= 0.0
      && updated[i].quantity == JsMath.Max(0.0, rows[i].quantity + delta)
      && updated[i] == rows[i].(quantity := updated[i].quantity)
      && forall j :: 0 <= j < |rows| && j != i ==> updated[j] == rows[j]
  {
  }

  /** Whatever the delta, non-negative quantities stay non-negative. */
  lemma ApplyDeltaKeepsNonNegative(rows: seq<WalletRow>, userId: string, cryptoId: string, delta: real)
    requires AllNonNegative(rows)
    ensures ApplyDelta(rows, userId, cryptoId, delta).Success? ==>
      AllNonNegative(ApplyDelta(rows, userId, cryptoId, delta).value)
  {
  }

  /** A zero delta leaves a non-negative balance, and so the whole table, as it was. */
  lemma ZeroDeltaChangesNothing(rows: seq<WalletRow>, userId: string, cryptoId: string)
    requires AllNonNegative(rows)
    ensures ApplyDelta(rows, userId, cryptoId, 0.0).Success? ==>
      ApplyDelta(rows, userId, cryptoId, 0.0).value == rows
  {
  }

  /** The clamp only acts when the delta overdraws the holding: a delta of at
      least minus the quantity is applied exactly. */
  lemma ClampOnlyOnOverdraw(rows: seq<WalletRow>, userId: string, cryptoId: string, delta: real)
    requires FindWallet(rows, userId, cryptoId).Some?
    ensures var i := FindWallet(rows, userId, cryptoId).value;
      (ApplyDelta(rows, userId, cryptoId, delta).value[i].quantity == rows[i].quantity + delta
       <==> rows[i].quantity + delta >= 0.0)
  {
  }

  /** `updateUserWallet`: find the row, clamp the new quantity at zero and
      write it back; a missing row is an error and nothing changes. */
  method UpdateUserWallet(db: Db, userId: string, cryptoId: string, delta: real) returns (r: Result<WalletRow, string>)
    modifies db`wallets
    ensures ApplyDelta(old(db.wallets), userId, cryptoId, delta).Failure? ==>
      r == Failure("Wallet not found") && db.wallets == old(db.wallets)
    ensures ApplyDelta(old(db.wallets), userId, cryptoId, delta).Success? ==>
      && db.wallets == ApplyDelta(old(db.wallets), userId, cryptoId, delta).value
      && r == Success(db.wallets[FindWallet(old(db.wallets), userId, cryptoId).value])
  {
    var wallet := FindWallet(db.wallets, userId, cryptoId);
    if wallet.None? {
      return Failure("Wallet not found");
    }
    var i := wallet.value;
    var newQuantity := JsMath.Max(0.0, db.wallets[i].quantity + delta);
    db.wallets := db.wallets[i := db.wallets[i].(quantity := newQuantity)];
    r := Success(db.wallets[i]);
  }

  /** `UpdateUserMoney`: increment the user's money and return the new value;
      the Prisma update of a missing user throws, modelled as None. */
  method UpdateUserMoney(db: Db, userId: string, moneyToUpdate: real) returns (r: Option<real>)
    modifies db`money
    ensures userId in old(db.money) ==>
      && db.money == old(db.money)[userId := old(db.money)[userId] + moneyToUpdate]
      && r == Some(db.money[userId])
    ensures userId !in old(db.money) ==> r == None && db.money == old(db.money)
  {
    if userId !in db.money {
      return None;
    }
    db.money := db.money[userId := db.money[userId] + moneyToUpdate];
    r := Some(db.money[userId]);
  }
}
