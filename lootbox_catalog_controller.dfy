/** The lootbox routes over the static `Cases` and `Guns` catalog: the raw
    equipment listing and opening a case. The catalog lives in a data file
    this model does not contain, so it is a parameter. */
module LootboxCatalogController {
  import opened Wrappers
  import opened Store
  import WeightedChoice
  import CasinoMiddleware
  import LootboxController

  datatype CaseItem = CaseItem(name: string, dropRate: real)
  datatype Case = Case(id: int, price: real, items: seq<CaseItem>)
  datatype Gun = Gun(id: int, name: string, price: real)

  /** `Cases.find(c => c.id === caseIdNum)`. */
  function FindCase(cases: seq<Case>, caseIdNum: int): (c: Option<Case>)
    ensures c.Some? ==> c.value in cases && c.value.id == caseIdNum
    ensures c.None? <==> forall i :: 0 <= i < |cases| ==> cases[i].id != caseIdNum
  {
    if cases == [] then None
    else if cases[0].id == caseIdNum then Some(cases[0])
    else FindCase(cases[1..], caseIdNum)
  }

  /** `Guns.find(g => g.name === name)`. */
  function FindGun(guns: seq<Gun>, name: string): (g: Option<Gun>)
    ensures g.Some? ==> g.value in guns && g.value.name == name
    ensures g.None? <==> forall i :: 0 <= i < |guns| ==> guns[i].name != name
  {
    if guns == [] then None
    else if guns[0].name == name then Some(guns[0])
    else FindGun(guns[1..], name)
  }

  function DropRates(items: seq<CaseItem>): (ws: seq<real>)
    ensures |ws| == |items| && forall i :: 0 <= i < |items| ==> ws[i] == items[i].dropRate
  {
    seq(|items|, i requires 0 <= i < |items| => items[i].dropRate)
  }

  datatype RowsReply =
    | RowsDenied(status: nat)   // 401 or 500 from the token
    | NoRows                    // "You dont have any items in your eq"
    | Rows(rows: seq<EquipmentRow>)

  /** The `/eq` route of this controller: the user's rows as stored, one per
      gun copy. It writes nothing. */
  method ListEquipment(db: Db, authorization: Option<string>, identify: string -> CasinoMiddleware.Identity)
    returns (reply: RowsReply)
    ensures CasinoMiddleware.TokenUser(authorization, identify).Failure? ==>
      reply == RowsDenied(CasinoMiddleware.TokenUser(authorization, identify).error)
    ensures CasinoMiddleware.TokenUser(authorization, identify).Success? ==>
      var mine := LootboxController.UserRows(db.equipment, CasinoMiddleware.TokenUser(authorization, identify).value);
      && (mine == [] ==> reply == NoRows)
      && (mine != [] ==>
            (&& reply.Rows? && reply.rows == mine
             && forall r :: r in reply.rows ==> r.userId == CasinoMiddleware.TokenUser(authorization, identify).value))
  {
    var user := CasinoMiddleware.TokenUser(authorization, identify);
    if user.Failure? {
      return RowsDenied(user.error);
    }
    var equipment := LootboxController.UserRows(db.equipment, user.value);
    if |equipment| == 0 {
      return NoRows;
    }
    reply := Rows(equipment);
  }

  /** What the checks before the draw establish. */
  datatype Ticket = Ticket(userId: string, selectedCase: Case)

  /** The checks of `/open-case` before the draw; none writes anything. */
  function OpenCaseChecks(authorization: Option<string>, identify: string -> CasinoMiddleware.Identity,
                          caseId: Option<string>, parseInt: string -> Option<int>,
                          money: map<string, real>, cases: seq<Case>): (r: Result<Ticket, nat>)
    ensures r.Failure? ==> r.error in {400, 401, 404, 500}
    ensures r.Success? ==>
      && CasinoMiddleware.TokenUser(authorization, identify) == Success(r.value.userId)
      && caseId.Some? && parseInt(caseId.value).Some?
      && FindCase(cases, parseInt(caseId.value).value) == Some(r.value.selectedCase)
      && r.value.userId in money && money[r.value.userId] >= r.value.selectedCase.price
    ensures CasinoMiddleware.TokenUser(authorization, identify).Success? && caseId.Some? && caseId.value != ""
            && parseInt(caseId.value).Some? && FindCase(cases, parseInt(caseId.value).value).None? ==>
      r == Failure(404)
  {
    match CasinoMiddleware.TokenUser(authorization, identify)
    case Failure(status) => Failure(status)
    case Success(userId) =>
      if caseId.None? || caseId.value == "" then Failure(400)
      else
        match parseInt(caseId.value)
        case None => Failure(400)
        case Some(caseIdNum) =>
          match FindCase(cases, caseIdNum)
          case None => Failure(404)
          case Some(selectedCase) =>
            if userId !in money then Failure(404)
            else if money[userId] < selectedCase.price then Failure(400)
            else Success(Ticket(userId, selectedCase))
  }

  /** A user who cannot pay is refused with 400 before any draw. */
  lemma CaseTooExpensiveRejected(authorization: Option<string>, identify: string -> CasinoMiddleware.Identity,
                                 caseId: string, parseInt: string -> Option<int>,
                                 money: map<string, real>, cases: seq<Case>)
    requires CasinoMiddleware.TokenUser(authorization, identify).Success?
    requires caseId != "" && parseInt(caseId).Some? && FindCase(cases, parseInt(caseId).value).Some?
    requires var userId := CasinoMiddleware.TokenUser(authorization, identify).value;
      userId in money && money[userId] < FindCase(cases, parseInt(caseId).value).value.price
    ensures OpenCaseChecks(authorization, identify, Some(caseId), parseInt, money, cases) == Failure(400)
  {
  }

  datatype OpenReply =
    | OpenDenied(status: nat)
    | Opened(gun: Gun)

  /** What an opened case did: the draw `u` picked item `i` by the weighted
      walk over the case's drop rates, `gun` is the gun of that item's name,
      the user paid the case price without going below zero, and one row of
      that gun was added to the equipment. */
  ghost predicate Awarded(t: Ticket, guns: seq<Gun>, u: real, gun: Gun,
                          money0: map<string, real>, equipment0: seq<EquipmentRow>,
                          money: map<string, real>, equipment: seq<EquipmentRow>)
  {
    var ws := DropRates(t.selectedCase.items);
    exists i: nat ::
      && WeightedChoice.FirstCovering(ws, WeightedChoice.ScaledDraw(u, WeightedChoice.Sum(ws)), i)
      && FindGun(guns, t.selectedCase.items[i].name) == Some(gun)
      && t.userId in money0
      && equipment == equipment0 + [EquipmentRow(t.userId, gun.id, gun.name, gun.price)]
      && money == money0[t.userId := money0[t.userId] - t.selectedCase.price]
      && 0.0 <= money[t.userId]
  }

  /** Item `i` is the one the draw `u` picks, and a gun of its name exists:
      the case opens with it. */
  predicate DrawOpens(t: Ticket, guns: seq<Gun>, u: real, i: nat)
  {
    var ws := DropRates(t.selectedCase.items);
    && WeightedChoice.FirstCovering(ws, WeightedChoice.ScaledDraw(u, WeightedChoice.Sum(ws)), i)
    && FindGun(guns, t.selectedCase.items[i].name).Some?
  }

  /** The draw and the award of `/open-case` once its checks passed: pick an
      item with the weighted walk, find its gun by name, then debit the case
      price and add the gun row. A failed pick or lookup answers 500 and
      writes nothing. */
  method DrawAndAward(db: Db, t: Ticket, guns: seq<Gun>, u: real) returns (reply: OpenReply)
    requires t.userId in db.money && db.money[t.userId] >= t.selectedCase.price
    modifies db`money, db`equipment
    ensures reply.OpenDenied? ==> reply.status == 500 && db.money == old(db.money) && db.equipment == old(db.equipment)
    ensures reply.Opened? ==>
      Awarded(t, guns, u, reply.gun, old(db.money), old(db.equipment), db.money, db.equipment)
    ensures forall i: nat :: DrawOpens(t, guns, u, i) ==> reply.Opened?
  {
    var ws := DropRates(t.selectedCase.items);
    var totalDropRate := WeightedChoice.Sum(ws);
    var randomNumber := WeightedChoice.ScaledDraw(u, totalDropRate);
    var selectedItem := WeightedChoice.CumulativeWalk(ws, randomNumber);
    forall i: nat | DrawOpens(t, guns, u, i)
      ensures selectedItem == Some(i)
    {
      if selectedItem.Some? {
        WeightedChoice.FirstCoveringUnique(ws, randomNumber, i, selectedItem.value);
      }
    }
    if selectedItem.None? {
      return OpenDenied(500);
    }
    var i := selectedItem.value;
    var gun := FindGun(guns, t.selectedCase.items[i].name);
    if gun.None? {
      return OpenDenied(500);
    }
    db.money := db.money[t.userId := db.money[t.userId] - t.selectedCase.price];
    db.equipment := db.equipment + [EquipmentRow(t.userId, gun.value.id, gun.value.name, gun.value.price)];
    reply := Opened(gun.value);
  }

  /** The `/open-case` route for the draw `u`. */
  method OpenCase(db: Db, authorization: Option<string>, identify: string -> CasinoMiddleware.Identity,
                  caseId: Option<string>, parseInt: string -> Option<int>,
                  cases: seq<Case>, guns: seq<Gun>, u: real)
    returns (reply: OpenReply)
    modifies db`money, db`equipment
    ensures var checks := OpenCaseChecks(authorization, identify, caseId, parseInt, old(db.money), cases);
      checks.Failure? ==> reply == OpenDenied(checks.error)
    ensures reply.OpenDenied? ==> db.money == old(db.money) && db.equipment == old(db.equipment)
    ensures reply.Opened? ==>
      Awarded(OpenCaseChecks(authorization, identify, caseId, parseInt, old(db.money), cases).value,
              guns, u, reply.gun, old(db.money), old(db.equipment), db.money, db.equipment)
    ensures var checks := OpenCaseChecks(authorization, identify, caseId, parseInt, old(db.money), cases);
      checks.Success? ==> forall i: nat :: DrawOpens(checks.value, guns, u, i) ==> reply.Opened?
  {
    var checks := OpenCaseChecks(authorization, identify, caseId, parseInt, db.money, cases);
    if checks.Failure? {
      return OpenDenied(checks.error);
    }
    var t := checks.value;
    assert t.userId in db.money && db.money[t.userId] >= t.selectedCase.price;
    reply := DrawAndAward(db, t, guns, u);
  }
}
