/** The lootbox routes backed by Prisma and Redis: the grouped equipment
    view, opening a case, selling one item and selling everything. The
    Redis hashes are maps handed in as parameters; `parseInt`, the token
    verification and the draw are inputs. */
module LootboxController {
  import opened Wrappers
  import opened Store
  import WeightedChoice
  import CasinoMiddleware
  import LootboxServices
  import JsValues

  // ---------------------------------------------------------------------
  // `/eq`: grouping the user's rows by gun

  /** One entry of the grouped equipment. */
  datatype Group = Group(gunId: int, gunName: string, gunPrice: real, quantity: nat)

  /** `acc.find(i => i.gunId === gunId)`, as an index. */
  function IndexOfGun(groups: seq<Group>, gunId: int): (k: Option<nat>)
    ensures k.Some? ==> k.value < |groups| && groups[k.value].gunId == gunId
    ensures k.None? <==> forall j :: 0 <= j < |groups| ==> groups[j].gunId != gunId
  {
    if groups == [] then None
    else if groups[0].gunId == gunId then Some(0)
    else
      match IndexOfGun(groups[1..], gunId)
      case None => None
      case Some(j) => Some(j + 1)
  }

  /** One step of the `reduce`: bump the entry of the row's gun, or append a
      new entry with quantity 1 and the row's name and price. */
  function AddRow(acc: seq<Group>, item: EquipmentRow): seq<Group>
  {
    match IndexOfGun(acc, item.gunId)
    case Some(k) => acc[k := acc[k].(quantity := acc[k].quantity + 1)]
    case None => acc + [Group(item.gunId, item.gunName, item.gunPrice, 1)]
  }

  /** The `reduce` over the rows, left to right. */
  function Grouped(rows: seq<EquipmentRow>): seq<Group>
  {
    if rows == [] then [] else AddRow(Grouped(rows[..|rows| - 1]), rows[|rows| - 1])
  }

  /** The number of rows holding a gun. */
  function CountGun(rows: seq<EquipmentRow>, gunId: int): nat
  {
    if rows == [] then 0
    else CountGun(rows[..|rows| - 1], gunId) + (if rows[|rows| - 1].gunId == gunId then 1 else 0)
  }

  /** The index of the first row holding a gun. */
  function FirstRow(rows: seq<EquipmentRow>, gunId: int): (i: Option<nat>)
    ensures i.Some? ==> i.value < |rows| && rows[i.value].gunId == gunId
    ensures i.Some? ==> forall j :: 0 <= j < i.value ==> rows[j].gunId != gunId
    ensures i.None? <==> forall j :: 0 <= j < |rows| ==> rows[j].gunId != gunId
  {
    if rows == [] then None
    else if rows[0].gunId == gunId then Some(0)
    else
      match FirstRow(rows[1..], gunId)
      case None => None
      case Some(j) => Some(j + 1)
  }

  function TotalQuantity(groups: seq<Group>): nat
  {
    if groups == [] then 0 else TotalQuantity(groups[..|groups| - 1]) + groups[|groups| - 1].quantity
  }

  predicate DistinctGuns(groups: seq<Group>)
  {
    forall i, j :: 0 <= i < j < |groups| ==> groups[i].gunId != groups[j].gunId
  }

  lemma {:induction false} FirstRowAppend(rows: seq<EquipmentRow>, item: EquipmentRow, gunId: int)
    ensures FirstRow(rows + [item], gunId) ==
      (if FirstRow(rows, gunId).Some? then FirstRow(rows, gunId)
       else if item.gunId == gunId then Some(|rows|) else None)
  {
    if rows != [] {
      assert (rows + [item])[1..] == rows[1..] + [item];
      FirstRowAppend(rows[1..], item, gunId);
    }
  }

  lemma {:induction false} CountAbsent(rows: seq<EquipmentRow>, gunId: int)
    requires forall j :: 0 <= j < |rows| ==> rows[j].gunId != gunId
    ensures CountGun(rows, gunId) == 0
  {
    if rows != [] {
      CountAbsent(rows[..|rows| - 1], gunId);
    }
  }

  lemma {:induction false} TotalAfterBump(groups: seq<Group>, k: nat, g: Group)
    requires k < |groups|
    ensures TotalQuantity(groups[k := g]) + groups[k].quantity == TotalQuantity(groups) + g.quantity
  {
    var n := |groups| - 1;
    if k < n {
      assert groups[k := g][..n] == groups[..n][k := g];
      TotalAfterBump(groups[..n], k, g);
    } else {
      assert groups[k := g][..n] == groups[..n];
    }
  }

  /** One step of the grouping, for entries with distinct guns: the row's
      gun gains one, every other entry is kept, and a gun not yet present is
      appended with quantity 1 and the row's name and price. */
  lemma AddRowStep(acc: seq<Group>, item: EquipmentRow)
    requires DistinctGuns(acc)
    ensures var g := AddRow(acc, item);
      && DistinctGuns(g)
      && IndexOfGun(g, item.gunId).Some?
      && (IndexOfGun(acc, item.gunId).Some? ==> |g| == |acc|)
      && (IndexOfGun(acc, item.gunId).None? ==>
            |g| == |acc| + 1 && g[|acc|] == Group(item.gunId, item.gunName, item.gunPrice, 1))
      && (forall k :: 0 <= k < |acc| ==>
            g[k] == acc[k].(quantity := acc[k].quantity + (if acc[k].gunId == item.gunId then 1 else 0)))
      && TotalQuantity(g) == TotalQuantity(acc) + 1
  {
    var g := AddRow(acc, item);
    match IndexOfGun(acc, item.gunId)
    case Some(k) =>
      TotalAfterBump(acc, k, acc[k].(quantity := acc[k].quantity + 1));
      assert g[k].gunId == item.gunId;
    case None =>
      assert g[..|g| - 1] == acc;
      assert g[|acc|].gunId == item.gunId;
  }

  /** Grouping a non-empty table is one reduce step after grouping all but its last row. */
  lemma GroupedLast(rows: seq<EquipmentRow>)
    requires rows != []
    ensures Grouped(rows) == AddRow(Grouped(rows[..|rows| - 1]), rows[|rows| - 1])
  {
  }

  /** Counting a gun's rows: the last row adds one when it holds the gun. */
  lemma CountLast(rows: seq<EquipmentRow>, gunId: int)
    requires rows != []
    ensures CountGun(rows, gunId) ==
      CountGun(rows[..|rows| - 1], gunId) + (if rows[|rows| - 1].gunId == gunId then 1 else 0)
  {
  }

  /** The entries have distinct guns and one unit per row. */
  lemma {:induction false} GroupedDistinct(rows: seq<EquipmentRow>)
    ensures DistinctGuns(Grouped(rows)) && TotalQuantity(Grouped(rows)) == |rows|
  {
    if rows != [] {
      GroupedLast(rows);
      GroupedDistinct(rows[..|rows| - 1]);
      AddRowStep(Grouped(rows[..|rows| - 1]), rows[|rows| - 1]);
    }
  }

  /** A row keeps every gun that has an entry, and its own gun gets one. */
  lemma AddRowKeepsGuns(acc: seq<Group>, item: EquipmentRow, gunId: int)
    requires IndexOfGun(acc, gunId).Some? || gunId == item.gunId
    ensures IndexOfGun(AddRow(acc, item), gunId).Some?
  {
    var g := AddRow(acc, item);
    if IndexOfGun(acc, gunId).Some? {
      var m := IndexOfGun(acc, gunId).value;
      assert g[m].gunId == gunId;
    } else {
      assert g[|acc|].gunId == gunId;
    }
  }

  /** Every row's gun has an entry. */
  lemma {:induction false} GroupedCovers(rows: seq<EquipmentRow>)
    ensures forall i :: 0 <= i < |rows| ==> IndexOfGun(Grouped(rows), rows[i].gunId).Some?
  {
    if rows == [] {
      return;
    }
    var pre, item := rows[..|rows| - 1], rows[|rows| - 1];
    GroupedLast(rows);
    GroupedCovers(pre);
    forall i | 0 <= i < |rows|
      ensures IndexOfGun(Grouped(rows), rows[i].gunId).Some?
    {
      if i < |pre| {
        assert rows[i] == pre[i];
      }
      AddRowKeepsGuns(Grouped(pre), item, rows[i].gunId);
    }
  }

  /** Every entry's gun has a row, and its quantity counts those rows. */
  lemma {:induction false} GroupedCountsRows(rows: seq<EquipmentRow>)
    ensures var groups := Grouped(rows);
      forall k :: 0 <= k < |groups| ==>
        FirstRow(rows, groups[k].gunId).Some? && groups[k].quantity == CountGun(rows, groups[k].gunId)
  {
    if rows == [] {
      return;
    }
    var pre, item := rows[..|rows| - 1], rows[|rows| - 1];
    assert rows == pre + [item];
    GroupedLast(rows);
    GroupedCountsRows(pre);
    GroupedDistinct(pre);
    var acc := Grouped(pre);
    var groups := Grouped(rows);
    AddRowStep(acc, item);
    forall k | 0 <= k < |groups|
      ensures FirstRow(rows, groups[k].gunId).Some? && groups[k].quantity == CountGun(rows, groups[k].gunId)
    {
      CountLast(rows, groups[k].gunId);
      FirstRowAppend(pre, item, groups[k].gunId);
      if k == |acc| {
        GroupedCovers(pre);
        NewGunNotInPrefix(pre, item);
        CountAbsent(pre, item.gunId);
      }
    }
  }

  /** The entries have distinct guns, every row's gun has an entry, every
      entry's gun has a row, and the quantities count the rows. */
  lemma GroupedCounts(rows: seq<EquipmentRow>)
    ensures var groups := Grouped(rows);
      && DistinctGuns(groups)
      && (forall i :: 0 <= i < |rows| ==> IndexOfGun(groups, rows[i].gunId).Some?)
      && (forall k :: 0 <= k < |groups| ==>
            FirstRow(rows, groups[k].gunId).Some? && groups[k].quantity == CountGun(rows, groups[k].gunId))
      && TotalQuantity(groups) == |rows|
  {
    GroupedDistinct(rows);
    GroupedCovers(rows);
    GroupedCountsRows(rows);
  }

  /** A gun without an entry yet has no row yet. */
  lemma NewGunNotInPrefix(pre: seq<EquipmentRow>, item: EquipmentRow)
    requires (forall i :: 0 <= i < |pre| ==> IndexOfGun(Grouped(pre), pre[i].gunId).Some?)
    requires IndexOfGun(Grouped(pre), item.gunId).None?
    ensures forall j :: 0 <= j < |pre| ==> pre[j].gunId != item.gunId
    ensures FirstRow(pre, item.gunId).None?
  {
    var acc := Grouped(pre);
    forall j | 0 <= j < |pre|
      ensures pre[j].gunId != item.gunId
    {
      var m := IndexOfGun(acc, pre[j].gunId).value;
      assert acc[m].gunId == pre[j].gunId;
    }
  }

  /** An old entry keeps its gun, name, price and first row when a row is added. */
  lemma FirstRowsKept(rows: seq<EquipmentRow>)
    requires rows != []
    ensures var pre := rows[..|rows| - 1];
      var acc, groups := Grouped(pre), Grouped(rows);
      && |acc| <= |groups|
      && forall k :: 0 <= k < |acc| ==>
           && groups[k].gunId == acc[k].gunId && groups[k].gunName == acc[k].gunName
           && groups[k].gunPrice == acc[k].gunPrice
           && FirstRow(pre, acc[k].gunId).Some?
           && FirstRow(rows, groups[k].gunId) == FirstRow(pre, acc[k].gunId)
           && rows[FirstRow(pre, acc[k].gunId).value] == pre[FirstRow(pre, acc[k].gunId).value]
  {
    var pre, item := rows[..|rows| - 1], rows[|rows| - 1];
    assert rows == pre + [item];
    GroupedLast(rows);
    GroupedDistinct(pre);
    GroupedCountsRows(pre);
    var acc := Grouped(pre);
    AddRowStep(acc, item);
    forall k | 0 <= k < |acc|
      ensures FirstRow(rows, acc[k].gunId) == FirstRow(pre, acc[k].gunId)
    {
      FirstRowAppend(pre, item, acc[k].gunId);
    }
  }

  /** A new entry, added for a gun no earlier row holds, has the new row as
      its first row and takes its name and price. */
  lemma FirstRowOfNewEntry(rows: seq<EquipmentRow>)
    requires rows != []
    ensures var pre := rows[..|rows| - 1];
      var acc, groups := Grouped(pre), Grouped(rows);
      && |groups| <= |acc| + 1
      && (|groups| == |acc| + 1 ==>
            && FirstRow(rows, groups[|acc|].gunId) == Some(|pre|)
            && groups[|acc|].gunName == rows[|pre|].gunName && groups[|acc|].gunPrice == rows[|pre|].gunPrice)
  {
    var pre, item := rows[..|rows| - 1], rows[|rows| - 1];
    GroupedLast(rows);
    GroupedDistinct(pre);
    var acc := Grouped(pre);
    AddRowStep(acc, item);
    if IndexOfGun(acc, item.gunId).None? {
      assert rows == pre + [item];
      GroupedCovers(pre);
      NewGunNotInPrefix(pre, item);
      FirstRowAppend(pre, item, item.gunId);
    }
  }

  /** How the first rows of the entries' guns move when a row is added: an
      old entry keeps its first row, a new entry's first row is the new one. */
  lemma FirstRowsStep(rows: seq<EquipmentRow>)
    requires rows != []
    ensures var pre := rows[..|rows| - 1];
      var acc, groups := Grouped(pre), Grouped(rows);
      && |acc| <= |groups| <= |acc| + 1
      && (forall k :: 0 <= k < |acc| ==>
            && groups[k].gunId == acc[k].gunId && groups[k].gunName == acc[k].gunName
            && groups[k].gunPrice == acc[k].gunPrice
            && FirstRow(pre, acc[k].gunId).Some?
            && FirstRow(rows, groups[k].gunId) == FirstRow(pre, acc[k].gunId)
            && rows[FirstRow(pre, acc[k].gunId).value] == pre[FirstRow(pre, acc[k].gunId).value])
      && (|groups| == |acc| + 1 ==>
            && FirstRow(rows, groups[|acc|].gunId) == Some(|pre|)
            && groups[|acc|].gunName == rows[|pre|].gunName && groups[|acc|].gunPrice == rows[|pre|].gunPrice)
  {
    FirstRowsKept(rows);
    FirstRowOfNewEntry(rows);
  }

  /** Each entry takes the name and price of its gun's first row. */
  lemma {:induction false} GroupedFirstRows(rows: seq<EquipmentRow>)
    ensures var groups := Grouped(rows);
      forall k :: 0 <= k < |groups| ==>
        && FirstRow(rows, groups[k].gunId).Some?
        && groups[k].gunName == rows[FirstRow(rows, groups[k].gunId).value].gunName
        && groups[k].gunPrice == rows[FirstRow(rows, groups[k].gunId).value].gunPrice
  {
    if rows != [] {
      GroupedFirstRows(rows[..|rows| - 1]);
      FirstRowsStep(rows);
    }
  }

  /** The entries come in the order of their guns' first rows. */
  lemma {:induction false} GroupedInFirstRowOrder(rows: seq<EquipmentRow>)
    ensures var groups := Grouped(rows);
      forall k :: 0 <= k < |groups| ==> FirstRow(rows, groups[k].gunId).Some?
    ensures var groups := Grouped(rows);
      forall i, j :: 0 <= i < j < |groups| ==>
        FirstRow(rows, groups[i].gunId).value < FirstRow(rows, groups[j].gunId).value
  {
    GroupedCounts(rows);
    if rows != [] {
      var pre := rows[..|rows| - 1];
      GroupedInFirstRowOrder(pre);
      FirstRowsStep(rows);
    }
  }

  /** The `reduce` of `/eq` as the loop it runs: for each row, look its gun
      up among the entries so far and bump it, or push a new entry. */
  method GroupEquipment(equipment: seq<EquipmentRow>) returns (acc: seq<Group>)
    ensures acc == Grouped(equipment)
    ensures DistinctGuns(acc) && TotalQuantity(acc) == |equipment|
    ensures forall k :: 0 <= k < |acc| ==> acc[k].quantity == CountGun(equipment, acc[k].gunId)
  {
    acc := [];
    for i := 0 to |equipment|
      invariant acc == Grouped(equipment[..i])
    {
      assert equipment[..i + 1][..i] == equipment[..i];
      var item := equipment[i];
      var existingItem := IndexOfGun(acc, item.gunId);
      if existingItem.Some? {
        var k := existingItem.value;
        acc := acc[k := acc[k].(quantity := acc[k].quantity + 1)];
      } else {
        acc := acc + [Group(item.gunId, item.gunName, item.gunPrice, 1)];
      }
    }
    assert equipment[..|equipment|] == equipment;
    GroupedCounts(equipment);
  }

  /** `equipment.findMany({ where: { userId } })`, in table order. */
  function UserRows(equipment: seq<EquipmentRow>, userId: string): (mine: seq<EquipmentRow>)
    ensures |mine| <= |equipment|
    ensures forall r :: r in mine <==> r in equipment && r.userId == userId
  {
    if equipment == [] then []
    else
      var rest := UserRows(equipment[1..], userId);
      if equipment[0].userId == userId then [equipment[0]] + rest else rest
  }

  /** `equipment.deleteMany({ where: { userId } })`: the other users' rows,
      in table order; with the user's rows they make up the table. */
  function OtherRows(equipment: seq<EquipmentRow>, userId: string): (rest: seq<EquipmentRow>)
    ensures forall r :: r in rest <==> r in equipment && r.userId != userId
    ensures |rest| + |UserRows(equipment, userId)| == |equipment|
  {
    if equipment == [] then []
    else
      var rest := OtherRows(equipment[1..], userId);
      if equipment[0].userId == userId then rest else [equipment[0]] + rest
  }

  /** A user without rows deletes nothing. */
  lemma {:induction false} OtherRowsOfAbsentUser(equipment: seq<EquipmentRow>, userId: string)
    requires UserRows(equipment, userId) == []
    ensures OtherRows(equipment, userId) == equipment
  {
    if equipment != [] {
      assert equipment[0] !in UserRows(equipment, userId);
      OtherRowsOfAbsentUser(equipment[1..], userId);
      assert equipment == [equipment[0]] + equipment[1..];
    }
  }

  datatype EqReply =
    | EqDenied(status: nat)      // 401 or 500 from the token
    | NoItems                    // "You dont have any items in your eq"
    | Equipment(groups: seq<Group>)

  /** The `/eq` route: the user's rows grouped by gun. It writes nothing. */
  method ListEquipment(db: Db, authorization: Option<string>, identify: string -> CasinoMiddleware.Identity)
    returns (reply: EqReply)
    ensures CasinoMiddleware.TokenUser(authorization, identify).Failure? ==>
      reply == EqDenied(CasinoMiddleware.TokenUser(authorization, identify).error)
    ensures CasinoMiddleware.TokenUser(authorization, identify).Success? ==>
      var mine := UserRows(db.equipment, CasinoMiddleware.TokenUser(authorization, identify).value);
      && (mine == [] ==> reply == NoItems)
      && (mine != [] ==> reply == Equipment(Grouped(mine)) && TotalQuantity(reply.groups) == |mine|)
  {
    var user := CasinoMiddleware.TokenUser(authorization, identify);
    if user.Failure? {
      return EqDenied(user.error);
    }
    var equipment := UserRows(db.equipment, user.value);
    if |equipment| == 0 {
      return NoItems;
    }
    var groupedEquipment := GroupEquipment(equipment);
    reply := Equipment(groupedEquipment);
  }

  // ---------------------------------------------------------------------
  // `/open-case`

  /** An item hash of a case: its drop rate and `parseInt(gun_id)` (None for NaN). */
  datatype ItemData = ItemData(dropRate: real, gunId: Option<int>)

  /** A gun hash: its name and price. */
  datatype GunInfo = GunInfo(name: string, price: real)

  function DropRates(items: seq<ItemData>): (ws: seq<real>)
    ensures |ws| == |items| && forall i :: 0 <= i < |items| ==> ws[i] == items[i].dropRate
  {
    seq(|items|, i requires 0 <= i < |items| => items[i].dropRate)
  }

  /** What the checks before the draw establish. */
  datatype CaseTicket = CaseTicket(userId: string, caseIdNum: int, casePrice: real, items: seq<ItemData>)

  /** The checks of `/open-case` before the draw, with the Redis hashes of
      the cases' prices and items as maps; a case absent from the map has an
      empty hash. Nothing is written by any of them. */
  function OpenCaseChecks(authorization: Option<string>, identify: string -> CasinoMiddleware.Identity,
                          caseId: Option<string>, parseInt: string -> Option<int>,
                          money: map<string, real>, casePrices: map<int, real>,
                          caseItems: map<int, seq<ItemData>>): (r: Result<CaseTicket, nat>)
    ensures r.Failure? ==> r.error in {400, 401, 404, 500}
    ensures (caseId.None? || caseId == Some("")) && CasinoMiddleware.TokenUser(authorization, identify).Success? ==>
      r == Failure(400)
    ensures r.Success? ==>
      && CasinoMiddleware.TokenUser(authorization, identify) == Success(r.value.userId)
      && caseId.Some? && parseInt(caseId.value) == Some(r.value.caseIdNum)
      && r.value.caseIdNum in casePrices && r.value.casePrice == casePrices[r.value.caseIdNum]
      && r.value.userId in money && money[r.value.userId] >= r.value.casePrice
      && r.value.caseIdNum in caseItems && r.value.items == caseItems[r.value.caseIdNum] && r.value.items != []
  {
    match CasinoMiddleware.TokenUser(authorization, identify)
    case Failure(status) => Failure(status)
    case Success(userId) =>
      if caseId.None? || caseId.value == "" then Failure(400)
      else
        match parseInt(caseId.value)
        case None => Failure(400)
        case Some(caseIdNum) =>
          if caseIdNum !in casePrices then Failure(404)
          else if userId !in money then Failure(404)
          else if money[userId] < casePrices[caseIdNum] then Failure(400)
          else if caseIdNum !in caseItems || caseItems[caseIdNum] == [] then Failure(500)
          else Success(CaseTicket(userId, caseIdNum, casePrices[caseIdNum], caseItems[caseIdNum]))
  }

  /** A user who cannot pay is refused with 400 before any draw. */
  lemma CaseTooExpensiveRejected(authorization: Option<string>, identify: string -> CasinoMiddleware.Identity,
                                 caseId: string, parseInt: string -> Option<int>,
                                 money: map<string, real>, casePrices: map<int, real>,
                                 caseItems: map<int, seq<ItemData>>)
    requires CasinoMiddleware.TokenUser(authorization, identify).Success?
    requires var userId := CasinoMiddleware.TokenUser(authorization, identify).value;
      caseId != "" && parseInt(caseId).Some? && parseInt(caseId).value in casePrices
      && userId in money && money[userId] < casePrices[parseInt(caseId).value]
    ensures OpenCaseChecks(authorization, identify, Some(caseId), parseInt, money, casePrices, caseItems) == Failure(400)
  {
  }

  datatype OpenReply =
    | OpenDenied(status: nat)
    | Opened(gun: GunInfo)

  /** What an opened case did: the draw `u` picked item `i` by the weighted
      walk over the case's drop rates, the item names a non-zero gun id with
      a gun hash, `gun` is that hash, the user paid the case price without
      going below zero, and one row of that gun was added to the equipment. */
  ghost predicate Awarded(t: CaseTicket, guns: map<int, GunInfo>, u: real, gun: GunInfo,
                          money0: map<string, real>, equipment0: seq<EquipmentRow>,
                          money: map<string, real>, equipment: seq<EquipmentRow>)
  {
    var ws := DropRates(t.items);
    exists i: nat, gunId: int ::
      && WeightedChoice.FirstCovering(ws, WeightedChoice.ScaledDraw(u, WeightedChoice.Sum(ws)), i)
      && t.items[i].gunId == Some(gunId) && gunId != 0 && gunId in guns
      && gun == guns[gunId]
      && t.userId in money0
      && equipment == equipment0 + [EquipmentRow(t.userId, gunId, gun.name, gun.price)]
      && money == money0[t.userId := money0[t.userId] - t.casePrice]
      && 0.0 <= money[t.userId]
  }

  /** Item `i` is the one the draw `u` picks, and it names a non-zero gun id
      that has a gun hash: the case opens with it. */
  predicate DrawOpens(t: CaseTicket, guns: map<int, GunInfo>, u: real, i: nat)
  {
    var ws := DropRates(t.items);
    && WeightedChoice.FirstCovering(ws, WeightedChoice.ScaledDraw(u, WeightedChoice.Sum(ws)), i)
    && t.items[i].gunId.Some? && t.items[i].gunId.value != 0 && t.items[i].gunId.value in guns
  }

  /** The draw and the award of `/open-case` once its checks passed: pick an
      item with the weighted walk, read its gun hash, then debit the case
      price and add the gun row. A failed pick, a `NaN` or zero gun id or a
      missing gun hash answers 500 and writes nothing. */
  method DrawAndAward(db: Db, t: CaseTicket, guns: map<int, GunInfo>, u: real) returns (reply: OpenReply)
    requires t.userId in db.money && db.money[t.userId] >= t.casePrice
    modifies db`money, db`equipment
    ensures reply.OpenDenied? ==> reply.status == 500 && db.money == old(db.money) && db.equipment == old(db.equipment)
    ensures reply.Opened? ==>
      Awarded(t, guns, u, reply.gun, old(db.money), old(db.equipment), db.money, db.equipment)
    ensures forall i: nat :: DrawOpens(t, guns, u, i) ==> reply.Opened?
  {
    var ws := DropRates(t.items);
    var totalDropRate := WeightedChoice.Sum(ws);
    var randomNumber := WeightedChoice.ScaledDraw(u, totalDropRate);
    var selected := WeightedChoice.CumulativeWalk(ws, randomNumber);
    forall i: nat | DrawOpens(t, guns, u, i)
      ensures selected == Some(i)
    {
      if selected.Some? {
        WeightedChoice.FirstCoveringUnique(ws, randomNumber, i, selected.value);
      }
    }
    if selected.None? || t.items[selected.value].gunId.None? || t.items[selected.value].gunId.value == 0 {
      return OpenDenied(500);
    }
    var i := selected.value;
    var selectedGunId := t.items[i].gunId.value;
    if selectedGunId !in guns {
      return OpenDenied(500);
    }
    var gunInfo := guns[selectedGunId];
    db.money := db.money[t.userId := db.money[t.userId] - t.casePrice];
    db.equipment := db.equipment + [EquipmentRow(t.userId, selectedGunId, gunInfo.name, gunInfo.price)];
    reply := Opened(gunInfo);
  }

  /** The `/open-case` route for the draw `u`, with the gun hashes as a map. */
  method OpenCase(db: Db, authorization: Option<string>, identify: string -> CasinoMiddleware.Identity,
                  caseId: Option<string>, parseInt: string -> Option<int>,
                  casePrices: map<int, real>, caseItems: map<int, seq<ItemData>>,
                  guns: map<int, GunInfo>, u: real)
    returns (reply: OpenReply)
    modifies db`money, db`equipment
    ensures var checks := OpenCaseChecks(authorization, identify, caseId, parseInt, old(db.money), casePrices, caseItems);
      checks.Failure? ==> reply == OpenDenied(checks.error)
    ensures reply.OpenDenied? ==> db.money == old(db.money) && db.equipment == old(db.equipment)
    ensures reply.Opened? ==>
      Awarded(OpenCaseChecks(authorization, identify, caseId, parseInt, old(db.money), casePrices, caseItems).value,
              guns, u, reply.gun, old(db.money), old(db.equipment), db.money, db.equipment)
    ensures var checks := OpenCaseChecks(authorization, identify, caseId, parseInt, old(db.money), casePrices, caseItems);
      checks.Success? ==> forall i: nat :: DrawOpens(checks.value, guns, u, i) ==> reply.Opened?
  {
    var checks := OpenCaseChecks(authorization, identify, caseId, parseInt, db.money, casePrices, caseItems);
    if checks.Failure? {
      return OpenDenied(checks.error);
    }
    var t := checks.value;
    assert t.userId in db.money && db.money[t.userId] >= t.casePrice;
    reply := DrawAndAward(db, t, guns, u);
  }

  // ---------------------------------------------------------------------
  // `/sell-item` and `/sell-all-item`

  datatype SellReply =
    | SellDenied(status: nat)                                              // 401/500 from the token, 400 for a missing field
    | SellRefused(message: string)                                         // 400 with the service's message
    | ItemSold(accountStatus: real, details: LootboxServices.SellResult)   // 200
    | BalanceUnrepresentable                                               // copies gone, balance not finite, see README

  /** A JSON number with no fractional part within the 32-bit signed range
      of Prisma's `Int` column. */
  predicate IsInteger(v: JsValues.Value)
  {
    v.Num? && v.n == v.n.Floor as real && -0x8000_0000 <= v.n.Floor < 0x8000_0000
  }

  /** The edges of the `Int` range: 2^31 is refused as a gun id, -2^31 and
      2^31 - 1 are taken. */
  lemma IsIntegerEdges()
    ensures !IsInteger(JsValues.Num(2147483648.0))
    ensures IsInteger(JsValues.Num(-2147483648.0)) && IsInteger(JsValues.Num(2147483647.0))
  {
    assert (2147483648.0).Floor == 2147483648;
    assert (-2147483648.0).Floor == -2147483648;
    assert (2147483647.0).Floor == 2147483647;
  }

  /** The `/sell-item` route. An `itemId` Prisma cannot take as a gun id
      makes the service's first query throw, which the service reports as a
      failure before any change. An infinite quantity passes the route:
      `+Infinity` exceeds every count of copies, `-Infinity` exceeds none, so
      every copy is deleted before the credit, which cannot be finite. */
  method SellItemRoute(db: Db, authorization: Option<string>, identify: string -> CasinoMiddleware.Identity,
                       itemId: JsValues.Value, quantity: JsValues.Value)
    returns (reply: SellReply)
    modifies db`equipment, db`money
    ensures CasinoMiddleware.TokenUser(authorization, identify).Failure? ==>
      reply == SellDenied(CasinoMiddleware.TokenUser(authorization, identify).error)
    ensures (CasinoMiddleware.TokenUser(authorization, identify).Success?
             && (!JsValues.Truthy(itemId) || !JsValues.Truthy(quantity))) ==> reply == SellDenied(400)
    ensures !(CasinoMiddleware.TokenUser(authorization, identify).Success?
              && JsValues.Truthy(itemId) && JsValues.Truthy(quantity) && IsInteger(itemId)
              && (quantity.Num? || quantity.Infinity?)) ==>
      db.equipment == old(db.equipment) && db.money == old(db.money) && !reply.ItemSold? && !reply.BalanceUnrepresentable?
    ensures CasinoMiddleware.TokenUser(authorization, identify).Success?
            && JsValues.Truthy(itemId) && JsValues.Truthy(quantity) && IsInteger(itemId) && quantity.Num? ==>
      var s := LootboxServices.SellOutcome(old(db.equipment), old(db.money),
                 CasinoMiddleware.TokenUser(authorization, identify).value, itemId.n.Floor, quantity.n);
      && db.equipment == s.equipment && db.money == s.money
      && (s.result.Sold? ==> reply == ItemSold(s.result.newBalance, s.result))
      && (s.result.SellFailed? ==> reply == SellRefused(s.result.message))
    ensures CasinoMiddleware.TokenUser(authorization, identify).Success?
            && JsValues.Truthy(itemId) && IsInteger(itemId) && quantity.Infinity? ==>
      var userId := CasinoMiddleware.TokenUser(authorization, identify).value;
      var copies := LootboxServices.Copies(old(db.equipment), userId, itemId.n.Floor);
      && (copies == [] ==>
            reply == SellRefused("You don't have this item in your EQ")
            && db.equipment == old(db.equipment) && db.money == old(db.money))
      && (copies != [] && !quantity.negative ==>
            reply == SellRefused("You don't have the quantity of this item")
            && db.equipment == old(db.equipment) && db.money == old(db.money))
      && (copies != [] && quantity.negative ==>
            && db.equipment == LootboxServices.WithoutCopies(old(db.equipment), userId, itemId.n.Floor)
            && db.money == old(db.money)
            && (userId in old(db.money) <==> reply == BalanceUnrepresentable)
            && (userId !in old(db.money) ==> reply == SellRefused("User not found")))
  {
    var user := CasinoMiddleware.TokenUser(authorization, identify);
    if user.Failure? {
      return SellDenied(user.error);
    }
    if !JsValues.Truthy(itemId) || !JsValues.Truthy(quantity) {
      return SellDenied(400);
    }
    if !IsInteger(itemId) || !(quantity.Num? || quantity.Infinity?) {
      return SellRefused("An error occurred while selling items");
    }
    if quantity.Infinity? {
      var gunId := itemId.n.Floor;
      if |LootboxServices.Copies(db.equipment, user.value, gunId)| == 0 {
        return SellRefused("You don't have this item in your EQ");
      }
      if !quantity.negative {
        return SellRefused("You don't have the quantity of this item");
      }
      db.equipment := LootboxServices.WithoutCopies(db.equipment, user.value, gunId);
      if user.value !in db.money {
        return SellRefused("User not found");
      }
      return BalanceUnrepresentable;
    }
    var result := LootboxServices.SellItem(db, user.value, itemId.n.Floor, quantity.n);
    if !result.Sold? {
      return SellRefused(result.message);
    }
    reply := ItemSold(result.newBalance, result);
  }

  /** The total `gunPrice` of some rows, summed left to right. */
  function PriceSum(rows: seq<EquipmentRow>): real
  {
    if rows == [] then 0.0 else PriceSum(rows[..|rows| - 1]) + rows[|rows| - 1].gunPrice
  }

  /** The `for ... of` loop of `/sell-all-item` that adds up the rows' prices. */
  method SumPrices(items: seq<EquipmentRow>) returns (moneyToUpdate: real)
    ensures moneyToUpdate == PriceSum(items)
  {
    moneyToUpdate := 0.0;
    for i := 0 to |items|
      invariant moneyToUpdate == PriceSum(items[..i])
    {
      assert items[..i + 1][..i] == items[..i];
      moneyToUpdate := moneyToUpdate + items[i].gunPrice;
    }
    assert items[..|items|] == items;
  }

  datatype SellAllReply =
    | SellAllDenied(status: nat)   // 401/500 from the token
    | NothingToSell                // "You don't have items in your EQ"
    | SellAllFailed                // 500 set with no body sent, no user row
    | AllSold(money: real)         // the user's money after the credit

  /** The `/sell-all-item` route: sum the prices of the user's rows, credit
      them, then delete the rows. The empty answer does not stop the handler,
      which goes on to credit nothing and delete nothing. */
  method SellAll(db: Db, authorization: Option<string>, identify: string -> CasinoMiddleware.Identity)
    returns (reply: SellAllReply)
    modifies db`equipment, db`money
    ensures CasinoMiddleware.TokenUser(authorization, identify).Failure? ==>
      && reply == SellAllDenied(CasinoMiddleware.TokenUser(authorization, identify).error)
      && db.equipment == old(db.equipment) && db.money == old(db.money)
    ensures CasinoMiddleware.TokenUser(authorization, identify).Success? ==>
      var userId := CasinoMiddleware.TokenUser(authorization, identify).value;
      var items := UserRows(old(db.equipment), userId);
      && (userId !in old(db.money) ==> db.equipment == old(db.equipment) && db.money == old(db.money))
      && (userId in old(db.money) ==>
            && db.money == old(db.money)[userId := old(db.money)[userId] + PriceSum(items)]
            && db.equipment == OtherRows(old(db.equipment), userId))
      && (items == [] ==> reply == NothingToSell && db.equipment == old(db.equipment) && db.money == old(db.money))
      && (items != [] && userId !in old(db.money) ==> reply == SellAllFailed)
      && (items != [] && userId in old(db.money) ==> reply == AllSold(db.money[userId]))
  {
    var user := CasinoMiddleware.TokenUser(authorization, identify);
    if user.Failure? {
      return SellAllDenied(user.error);
    }
    var userId := user.value;
    var items := UserRows(db.equipment, userId);
    var empty := |items| == 0;
    var moneyToUpdate := SumPrices(items);
    if userId !in db.money {
      return if empty then NothingToSell else SellAllFailed;
    }
    db.money := db.money[userId := db.money[userId] + moneyToUpdate];
    if empty {
      OtherRowsOfAbsentUser(db.equipment, userId);
    }
    db.equipment := OtherRows(db.equipment, userId);
    reply := if empty then NothingToSell else AllSold(db.money[userId]);
  }

  /** Selling everything, then listing the equipment, finds nothing: after a
      successful sell-all no row of the user is left, and the other users'
      rows are all kept. */
  lemma SellAllLeavesNoRows(equipment: seq<EquipmentRow>, userId: string)
    ensures UserRows(OtherRows(equipment, userId), userId) == []
    ensures forall r :: r in equipment && r.userId != userId ==> r in OtherRows(equipment, userId)
  {
    var rest := OtherRows(equipment, userId);
    if UserRows(rest, userId) != [] {
      assert UserRows(rest, userId)[0] in UserRows(rest, userId);
    }
  }
}
