/** `buyCrypto` and `sellCrypto`: trading a crypto holding against the
    user's money at a given price. The price comes from CoinGecko, which is
    outside this model, so it is a parameter. */
module MarketServices {
  import opened Wrappers
  import opened Store
  import MainServices

  /** The two columns a trade touches. */
  datatype Ledger = Ledger(wallets: seq<WalletRow>, money: map<string, real>)

  /** What a successful trade returns: the updated wallet row and money. */
  datatype Trade = Trade(wallet: WalletRow, money: real)

  /** `quantity * cryptoPrice`. */
  function Cost(quantity: real, cryptoPrice: real): real
  {
    quantity * cryptoPrice
  }

  /** The ledger after `buyCrypto`, or its error, checked in the service's order. */
  function BuyOutcome(l: Ledger, userId: string, cryptoId: string, quantity: real, cryptoPrice: real): (r: Result<Ledger, string>)
    ensures r.Failure? <==>
      || MainServices.FindWallet(l.wallets, userId, cryptoId).None?
      || userId !in l.money
      || Cost(quantity, cryptoPrice) > l.money[userId]
  {
    match MainServices.FindWallet(l.wallets, userId, cryptoId)
    case None => Failure("Wallet not found")
    case Some(i) =>
      var totalCost := Cost(quantity, cryptoPrice);
      if userId !in l.money then Failure("User money not found")
      else if totalCost > l.money[userId] then Failure("You don't have enough money")
      else
        Success(Ledger(l.wallets[i := l.wallets[i].(quantity := l.wallets[i].quantity + quantity)],
                       l.money[userId := l.money[userId] - totalCost]))
  }

  /** The ledger after `sellCrypto`, or its error, checked in the service's order. */
  function SellOutcome(l: Ledger, userId: string, cryptoId: string, quantity: real, cryptoPrice: real): (r: Result<Ledger, string>)
    ensures r.Failure? <==>
      || MainServices.FindWallet(l.wallets, userId, cryptoId).None?
      || l.wallets[MainServices.FindWallet(l.wallets, userId, cryptoId).value].quantity < quantity
      || userId !in l.money
  {
    match MainServices.FindWallet(l.wallets, userId, cryptoId)
    case None => Failure("Wallet not found")
    case Some(i) =>
      if l.wallets[i].quantity < quantity then Failure("You don't have enough crypto")
      else if userId !in l.money then Failure("User money not found")
      else
        Success(Ledger(l.wallets[i := l.wallets[i].(quantity := l.wallets[i].quantity - quantity)],
                       l.money[userId := l.money[userId] + Cost(quantity, cryptoPrice)]))
  }

  /** A successful buy debits exactly the cost, never below zero, and adds
      the quantity to the one wallet row found; nothing else changes. */
  lemma BuyEffect(l: Ledger, userId: string, cryptoId: string, quantity: real, cryptoPrice: real)
    requires BuyOutcome(l, userId, cryptoId, quantity, cryptoPrice).Success?
    ensures var i := MainServices.FindWallet(l.wallets, userId, cryptoId).value;
      var after := BuyOutcome(l, userId, cryptoId, quantity, cryptoPrice).value;
      && after.money[userId] == l.money[userId] - Cost(quantity, cryptoPrice)
      && after.money[userId] >= 0.0
      && (forall v :: v in l.money && v != userId ==> v in after.money && after.money[v] == l.money[v])
      && |after.wallets| == |l.wallets|
      && after.wallets[i] == l.wallets[i].(quantity := l.wallets[i].quantity + quantity)
      && (forall j :: 0 <= j < |l.wallets| && j != i ==> after.wallets[j] == l.wallets[j])
  {
  }

  /** A successful sell credits exactly the proceeds and removes the
      quantity, which leaves the holding non-negative; nothing else changes. */
  lemma SellEffect(l: Ledger, userId: string, cryptoId: string, quantity: real, cryptoPrice: real)
    requires SellOutcome(l, userId, cryptoId, quantity, cryptoPrice).Success?
    ensures var i := MainServices.FindWallet(l.wallets, userId, cryptoId).value;
      var after := SellOutcome(l, userId, cryptoId, quantity, cryptoPrice).value;
      && after.money[userId] == l.money[userId] + Cost(quantity, cryptoPrice)
      && (forall v :: v in l.money && v != userId ==> v in after.money && after.money[v] == l.money[v])
      && |after.wallets| == |l.wallets|
      && after.wallets[i] == l.wallets[i].(quantity := l.wallets[i].quantity - quantity)
      && after.wallets[i].quantity >= 0.0
      && (forall j :: 0 <= j < |l.wallets| && j != i ==> after.wallets[j] == l.wallets[j])
  {
  }

  /** Changing a row's quantity does not change which row matches first. */
  lemma {:induction false} FindWalletIgnoresQuantity(rows: seq<WalletRow>, userId: string, cryptoId: string, i: nat, q: real)
    requires i < |rows|
    ensures MainServices.FindWallet(rows[i := rows[i].(quantity := q)], userId, cryptoId)
         == MainServices.FindWallet(rows, userId, cryptoId)
  {
    if i > 0 {
      assert rows[i := rows[i].(quantity := q)][1..] == rows[1..][i - 1 := rows[i].(quantity := q)];
      FindWalletIgnoresQuantity(rows[1..], userId, cryptoId, i - 1, q);
    }
  }

  /** Setting a row's quantity and then setting it back leaves the rows as they were. */
  lemma QuantityRestored(rows: seq<WalletRow>, i: nat, q: real)
    requires i < |rows|
    ensures var bumped := rows[i := rows[i].(quantity := q)];
      bumped[i := bumped[i].(quantity := rows[i].quantity)] == rows
  {
  }

  /** Debiting and then crediting the same amount leaves the money as it was. */
  lemma MoneyRestored(money: map<string, real>, userId: string, c: real)
    requires userId in money
    ensures var debited := money[userId := money[userId] - c];
      debited[userId := debited[userId] + c] == money
  {
    var debited := money[userId := money[userId] - c];
    assert debited[userId] + c == money[userId];
  }

  /** Buying and then selling the same quantity at the same price puts both
      the money and the wallet back as they were. */
  lemma BuyThenSellRestores(l: Ledger, userId: string, cryptoId: string, quantity: real, cryptoPrice: real)
    requires BuyOutcome(l, userId, cryptoId, quantity, cryptoPrice).Success?
    requires MainServices.AllNonNegative(l.wallets)
    ensures var bought := BuyOutcome(l, userId, cryptoId, quantity, cryptoPrice).value;
      SellOutcome(bought, userId, cryptoId, quantity, cryptoPrice) == Success(l)
  {
    var i := MainServices.FindWallet(l.wallets, userId, cryptoId).value;
    var q0 := l.wallets[i].quantity;
    var c := Cost(quantity, cryptoPrice);
    var wallets := l.wallets[i := l.wallets[i].(quantity := q0 + quantity)];
    var money := l.money[userId := l.money[userId] - c];
    assert BuyOutcome(l, userId, cryptoId, quantity, cryptoPrice) == Success(Ledger(wallets, money));
    FindWalletIgnoresQuantity(l.wallets, userId, cryptoId, i, q0 + quantity);
    assert q0 >= 0.0;
    assert wallets[i].quantity - quantity == q0;
    QuantityRestored(l.wallets, i, q0 + quantity);
    MoneyRestored(l.money, userId, c);
    assert SellOutcome(Ledger(wallets, money), userId, cryptoId, quantity, cryptoPrice) == Success(Ledger(l.wallets, l.money));
  }

  /** `buyCrypto`: the two writes are one step here. */
  method BuyCrypto(db: Db, userId: string, cryptoId: string, quantity: real, cryptoPrice: real)
    returns (r: Result<Trade, string>)
    modifies db`wallets, db`money
    ensures var out := BuyOutcome(Ledger(old(db.wallets), old(db.money)), userId, cryptoId, quantity, cryptoPrice);
      && (out.Failure? ==> r == Failure(out.error) && db.wallets == old(db.wallets) && db.money == old(db.money))
      && (out.Success? ==>
            && Ledger(db.wallets, db.money) == out.value
            && r == Success(Trade(db.wallets[MainServices.FindWallet(old(db.wallets), userId, cryptoId).value], db.money[userId])))
  {
    var wallet := MainServices.FindWallet(db.wallets, userId, cryptoId);
    if wallet.None? {
      return Failure("Wallet not found");
    }
    var i := wallet.value;
    var totalCost := Cost(quantity, cryptoPrice);
    if userId !in db.money {
      return Failure("User money not found");
    }
    if totalCost > db.money[userId] {
      return Failure("You don't have enough money");
    }
    var newUserMoney := db.money[userId] - totalCost;
    var newQuantity := db.wallets[i].quantity + quantity;
    db.wallets := db.wallets[i := db.wallets[i].(quantity := newQuantity)];
    db.money := db.money[userId := newUserMoney];
    r := Success(Trade(db.wallets[i], newUserMoney));
  }

  /** `sellCrypto`: the two writes are one step here. */
  method SellCrypto(db: Db, userId: string, cryptoId: string, quantity: real, cryptoPrice: real)
    returns (r: Result<Trade, string>)
    modifies db`wallets, db`money
    ensures var out := SellOutcome(Ledger(old(db.wallets), old(db.money)), userId, cryptoId, quantity, cryptoPrice);
      && (out.Failure? ==> r == Failure(out.error) && db.wallets == old(db.wallets) && db.money == old(db.money))
      && (out.Success? ==>
            && Ledger(db.wallets, db.money) == out.value
            && r == Success(Trade(db.wallets[MainServices.FindWallet(old(db.wallets), userId, cryptoId).value], db.money[userId])))
  {
    var wallet := MainServices.FindWallet(db.wallets, userId, cryptoId);
    if wallet.None? {
      return Failure("Wallet not found");
    }
    var i := wallet.value;
    if db.wallets[i].quantity < quantity {
      return Failure("You don't have enough crypto");
    }
    if userId !in db.money {
      return Failure("User money not found");
    }
    var totalProceeds := Cost(quantity, cryptoPrice);
    var newUserMoney := db.money[userId] + totalProceeds;
    var newQuantity := db.wallets[i].quantity - quantity;
    db.wallets := db.wallets[i := db.wallets[i].(quantity := newQuantity)];
    db.money := db.money[userId := newUserMoney];
    r := Success(Trade(db.wallets[i], newUserMoney));
  }
}
