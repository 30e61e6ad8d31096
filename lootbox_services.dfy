/** `SellItem`: selling copies of one gun from a user's equipment for the
    price of its first copy. As it is written, every copy of the gun is
    deleted, however many were sold, and the user is looked up only after
    the deletion. */
module LootboxServices {
  import opened Store

  predicate IsCopy(row: EquipmentRow, userId: string, gunId: int)
  {
    row.userId == userId && row.gunId == gunId
  }

  /** `equipment.findMany({ where: { userId, gunId } })`, in table order. */
  function Copies(equipment: seq<EquipmentRow>, userId: string, gunId: int): (items: seq<EquipmentRow>)
    ensures |items| <= |equipment|
    ensures forall r :: r in items <==> r in equipment && IsCopy(r, userId, gunId)
  {
    if equipment == [] then []
    else
      var rest := Copies(equipment[1..], userId, gunId);
      if IsCopy(equipment[0], userId, gunId) then [equipment[0]] + rest else rest
  }

  /** `equipment.deleteMany({ where: { userId, gunId } })`: the rows that
      remain, in table order. Together with the copies they account for every
      row of the table. */
  function WithoutCopies(equipment: seq<EquipmentRow>, userId: string, gunId: int): (rest: seq<EquipmentRow>)
    ensures forall r :: r in rest <==> r in equipment && !IsCopy(r, userId, gunId)
    ensures |rest| + |Copies(equipment, userId, gunId)| == |equipment|
  {
    if equipment == [] then []
    else
      var rest := WithoutCopies(equipment[1..], userId, gunId);
      if IsCopy(equipment[0], userId, gunId) then rest else [equipment[0]] + rest
  }

  /** `quantity * itemPrice`. */
  function Credit(quantity: real, itemPrice: real): real
  {
    quantity * itemPrice
  }

  lemma NegativeCredit(quantity: real, itemPrice: real)
    requires quantity < 0.0 && itemPrice > 0.0
    ensures Credit(quantity, itemPrice) < 0.0
  {
  }

  datatype SellResult =
    | Sold(soldQuantity: real, itemPrice: real, totalEarned: real, newBalance: real)
    | SellFailed(message: string)

  /** The equipment table, the money column and the result after a sale. */
  datatype SellState = SellState(equipment: seq<EquipmentRow>, money: map<string, real>, result: SellResult)

  /** What `SellItem(userId, gunId, quantity)` leaves behind, in the order
      the service works: the two refusals, the deletion, the user lookup,
      then the credit. */
  function SellOutcome(equipment: seq<EquipmentRow>, money: map<string, real>,
                       userId: string, gunId: int, quantity: real): SellState
  {
    var items := Copies(equipment, userId, gunId);
    if |items| == 0 then SellState(equipment, money, SellFailed("You don't have this item in your EQ"))
    else if (|items| as real) < quantity then SellState(equipment, money, SellFailed("You don't have the quantity of this item"))
    else
      var itemPrice := items[0].gunPrice;
      var moneyToAdd := Credit(quantity, itemPrice);
      var rest := WithoutCopies(equipment, userId, gunId);
      if userId !in money then SellState(rest, money, SellFailed("User not found"))
      else
        var newBalance := money[userId] + moneyToAdd;
        SellState(rest, money[userId := newBalance], Sold(quantity, itemPrice, moneyToAdd, newBalance))
  }

  /** A user without the gun, or with fewer copies than requested, gets a
      failure and nothing changes. */
  lemma RefusalChangesNothing(equipment: seq<EquipmentRow>, money: map<string, real>,
                              userId: string, gunId: int, quantity: real)
    requires var n := |Copies(equipment, userId, gunId)|; n == 0 || (n as real) < quantity
    ensures var s := SellOutcome(equipment, money, userId, gunId, quantity);
      s.result.SellFailed? && s.equipment == equipment && s.money == money
  {
  }

  /** Once past the two refusals, every copy of the gun is gone and every
      other row is kept, whatever the quantity sold. */
  lemma SaleDeletesEveryCopy(equipment: seq<EquipmentRow>, money: map<string, real>,
                             userId: string, gunId: int, quantity: real)
    requires var n := |Copies(equipment, userId, gunId)|; n > 0 && quantity <= n as real
    ensures var s := SellOutcome(equipment, money, userId, gunId, quantity);
      && (forall r :: r in s.equipment ==> !IsCopy(r, userId, gunId))
      && (forall r :: r in equipment && !IsCopy(r, userId, gunId) ==> r in s.equipment)
      && |s.equipment| == |equipment| - |Copies(equipment, userId, gunId)|
  {
  }

  /** A successful sale credits quantity times the first copy's price to
      this user only, and reports what it credited. */
  lemma SaleCredit(equipment: seq<EquipmentRow>, money: map<string, real>,
                   userId: string, gunId: int, quantity: real)
    requires SellOutcome(equipment, money, userId, gunId, quantity).result.Sold?
    ensures var s := SellOutcome(equipment, money, userId, gunId, quantity);
      var price := Copies(equipment, userId, gunId)[0].gunPrice;
      && userId in money
      && s.money == money[userId := money[userId] + Credit(quantity, price)]
      && s.result == Sold(quantity, price, Credit(quantity, price), money[userId] + Credit(quantity, price))
  {
  }

  /** The user lookup comes after the deletion: a missing user gets a
      failure with the copies already deleted and no money moved. */
  lemma MissingUserLosesCopies(equipment: seq<EquipmentRow>, money: map<string, real>,
                               userId: string, gunId: int, quantity: real)
    requires var n := |Copies(equipment, userId, gunId)|; n > 0 && quantity <= n as real
    requires userId !in money
    ensures var s := SellOutcome(equipment, money, userId, gunId, quantity);
      && s.result == SellFailed("User not found")
      && s.money == money
      && s.equipment == WithoutCopies(equipment, userId, gunId)
      && |s.equipment| < |equipment|
  {
  }

  /** Selling one of two copies deletes both and pays for one. */
  lemma SellingOneOfTwoDeletesBoth(userId: string, gunId: int, price: real, balance: real)
    ensures var row := EquipmentRow(userId, gunId, "AK-47", price);
      var s := SellOutcome([row, row], map[userId := balance], userId, gunId, 1.0);
      s.equipment == [] && s.money == map[userId := balance + price]
  {
    var row := EquipmentRow(userId, gunId, "AK-47", price);
    assert Copies([row, row], userId, gunId) == [row, row] by {
      assert [row, row][1..] == [row];
      assert Copies([row], userId, gunId) == [row];
    }
    assert WithoutCopies([row, row], userId, gunId) == [] by {
      assert [row, row][1..] == [row];
    }
  }

  /** Nothing bounds the quantity from below: a negative quantity passes the
      copy check and debits the seller. */
  lemma NegativeQuantityDebits(equipment: seq<EquipmentRow>, money: map<string, real>,
                               userId: string, gunId: int, quantity: real)
    requires |Copies(equipment, userId, gunId)| > 0 && Copies(equipment, userId, gunId)[0].gunPrice > 0.0
    requires userId in money && quantity < 0.0
    ensures var s := SellOutcome(equipment, money, userId, gunId, quantity);
      s.result.Sold? && s.money[userId] < money[userId]
  {
    NegativeCredit(quantity, Copies(equipment, userId, gunId)[0].gunPrice);
  }

  /** `SellItem`: find the copies, refuse, delete every copy, look the user
      up and credit the sale. */
  method SellItem(db: Db, userId: string, gunId: int, quantity: real) returns (result: SellResult)
    modifies db`equipment, db`money
    ensures db.equipment == SellOutcome(old(db.equipment), old(db.money), userId, gunId, quantity).equipment
    ensures db.money == SellOutcome(old(db.equipment), old(db.money), userId, gunId, quantity).money
    ensures result == SellOutcome(old(db.equipment), old(db.money), userId, gunId, quantity).result
  {
    var items := Copies(db.equipment, userId, gunId);
    if |items| == 0 {
      return SellFailed("You don't have this item in your EQ");
    }
    if (|items| as real) < quantity {
      return SellFailed("You don't have the quantity of this item");
    }
    var itemPrice := items[0].gunPrice;
    var moneyToAdd := Credit(quantity, itemPrice);
    db.equipment := WithoutCopies(db.equipment, userId, gunId);
    if userId !in db.money {
      return SellFailed("User not found");
    }
    var newBalance := db.money[userId] + moneyToAdd;
    db.money := db.money[userId := newBalance];
    result := Sold(quantity, itemPrice, moneyToAdd, newBalance);
  }
}
