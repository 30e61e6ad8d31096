/** The rules inside the market router: the top-five gainers and losers of
    the coin list, and the two wishlist renames with their ownership checks.
    The coin list comes from CoinGecko and the token from JWT verification,
    both outside this model, so they are parameters. */
module MarketController {
  import opened Wrappers
  import opened Store
  import JsValues
  import CasinoMiddleware

  // ---------------------------------------------------------------------
  // /top-movers
  // ---------------------------------------------------------------------

  /** A coin of the markets list, as far as the sort looks at it. */
  datatype Coin = Coin(id: string, priceChange24h: real)

  /** `a` may come before `b`: a larger change first when `descending`
      (gainers), a smaller one first otherwise (losers). */
  predicate Precedes(a: Coin, b: Coin, descending: bool)
  {
    if descending then a.priceChange24h >= b.priceChange24h else a.priceChange24h <= b.priceChange24h
  }

  predicate SortedBy(s: seq<Coin>, descending: bool)
  {
    forall i, j :: 0 <= i < j < |s| ==> Precedes(s[i], s[j], descending)
  }

  /** Insert `x` into a sorted list ahead of the first coin it may precede,
      so that it stays ahead of the coins that compare equal to it. */
  function Insert(x: Coin, s: seq<Coin>, descending: bool): (r: seq<Coin>)
    ensures multiset(r) == multiset(s) + multiset{x}
    ensures |r| == |s| + 1
  {
    if s == [] || Precedes(x, s[0], descending) then [x] + s
    else
      assert s == [s[0]] + s[1..];
      [s[0]] + Insert(x, s[1..], descending)
  }

  lemma {:induction false} InsertSorted(x: Coin, s: seq<Coin>, descending: bool)
    requires SortedBy(s, descending)
    ensures SortedBy(Insert(x, s, descending), descending)
  {
    if s == [] || Precedes(x, s[0], descending) {
    } else {
      var rest := Insert(x, s[1..], descending);
      assert SortedBy(s[1..], descending);
      InsertSorted(x, s[1..], descending);
      forall j | 0 <= j < |rest| ensures Precedes(s[0], rest[j], descending) {
        assert rest[j] in multiset(rest);
        if rest[j] != x {
          assert rest[j] in multiset(s[1..]);
          var m :| 0 <= m < |s[1..]| && s[1..][m] == rest[j];
          assert s[m + 1] == rest[j];
        }
      }
    }
  }

  /** `[...coins].sort(comparator)`: a copy of the list in the chosen order;
      coins that compare equal keep their order in the input. */
  function SortBy(coins: seq<Coin>, descending: bool): (r: seq<Coin>)
    ensures multiset(r) == multiset(coins)
    ensures |r| == |coins|
    ensures SortedBy(r, descending)
  {
    if coins == [] then []
    else
      assert coins == [coins[0]] + coins[1..];
      var rest := SortBy(coins[1..], descending);
      InsertSorted(coins[0], rest, descending);
      Insert(coins[0], rest, descending)
  }

  /** `.slice(0, n)`. */
  function Take(s: seq<Coin>, n: nat): (r: seq<Coin>)
    ensures |r| == if |s| <= n then |s| else n
    ensures r == s[..|r|]
  {
    if |s| <= n then s else s[..n]
  }

  /** The gainers (`descending`) or the losers of the list: at most five
      coins, in order, taken from the list itself. */
  function TopMovers(coins: seq<Coin>, descending: bool): (top: seq<Coin>)
    ensures |top| == if |coins| <= 5 then |coins| else 5
    ensures SortedBy(top, descending)
    ensures multiset(top) <= multiset(coins)
  {
    var sorted := SortBy(coins, descending);
    var top := Take(sorted, 5);
    assert sorted == top + sorted[|top|..];
    top
  }

  /** No coin left out of the top five beats one that is in it: every coin
      of the list that the five do not account for comes after all of them. */
  lemma TopMoversBeatTheRest(coins: seq<Coin>, descending: bool)
    ensures var top := TopMovers(coins, descending);
      forall t, c :: t in top && c in multiset(coins) - multiset(top) ==> Precedes(t, c, descending)
  {
    var sorted := SortBy(coins, descending);
    var top := TopMovers(coins, descending);
    var rest := sorted[|top|..];
    assert top == sorted[..|top|];
    assert sorted == top + rest;
    assert multiset(coins) - multiset(top) == multiset(rest);
    PrefixPrecedesSuffix(sorted, |top|, descending);
    forall t, c | t in top && c in multiset(rest)
      ensures Precedes(t, c, descending)
    {
      assert c in rest;
    }
  }

  /** In a sorted list, every coin before position `n` may precede every
      coin from `n` on. */
  lemma PrefixPrecedesSuffix(s: seq<Coin>, n: nat, descending: bool)
    requires SortedBy(s, descending) && n <= |s|
    ensures forall t, c :: t in s[..n] && c in s[n..] ==> Precedes(t, c, descending)
  {
    forall t, c | t in s[..n] && c in s[n..]
      ensures Precedes(t, c, descending)
    {
      var i :| 0 <= i < n && s[..n][i] == t;
      var j :| 0 <= j < |s| - n && s[n..][j] == c;
      assert s[i] == t && s[n + j] == c;
    }
  }


  /** With five coins or fewer, the top movers are the whole list, reordered. */
  lemma ShortListIsAllMovers(coins: seq<Coin>, descending: bool)
    requires |coins| <= 5
    ensures multiset(TopMovers(coins, descending)) == multiset(coins)
  {
    var sorted := SortBy(coins, descending);
    assert sorted[..|sorted|] == sorted;
  }

  // ---------------------------------------------------------------------
  // The token prefix of the wishlist routes
  // ---------------------------------------------------------------------

  /** `getUserID(token).userId` after the token check: 401 without a token,
      500 when verification throws, and the `id` claim, possibly absent
      (`undefined`), otherwise. */
  function Caller(authorization: Option<string>, identify: string -> CasinoMiddleware.Identity): (r: Result<Option<string>, nat>)
    ensures r == Failure(401) <==> CasinoMiddleware.TokenAfterSpace(authorization).None?
    ensures r == Failure(500) <==>
      CasinoMiddleware.TokenAfterSpace(authorization).Some?
      && identify(CasinoMiddleware.TokenAfterSpace(authorization).value).VerifyFails?
    ensures r.Failure? ==> r.error == 401 || r.error == 500
    ensures r.Success? ==>
      var who := identify(CasinoMiddleware.TokenAfterSpace(authorization).value);
      && (r.value.Some? <==> who.Identified?)
      && (r.value.Some? ==> r.value.value == who.id)
  {
    match CasinoMiddleware.TokenAfterSpace(authorization)
    case None => Failure(401)
    case Some(token) =>
      match identify(token)
      case VerifyFails => Failure(500)
      case NoUserId => Success(None)
      case Identified(id) => Success(Some(id))
  }

  // ---------------------------------------------------------------------
  // /wishlist/updateName/:wishlistId
  // ---------------------------------------------------------------------

  /** The checks of the rename, after the token: a falsy name (400), an
      unknown wishlist (404), a wishlist of someone else (401), and a name
      that is not a string, which the database write refuses (500). */
  function RenameCheck(caller: Option<string>, wishlists: map<string, Wishlist>,
                       wishlistId: string, wishlistName: JsValues.Value): (r: Result<string, nat>)
    ensures r.Failure? ==> r.error in {400, 401, 404, 500}
    ensures !JsValues.Truthy(wishlistName) ==> r == Failure(400)
    ensures JsValues.Truthy(wishlistName) && wishlistId !in wishlists ==> r == Failure(404)
    ensures JsValues.Truthy(wishlistName) && wishlistId in wishlists && caller != Some(wishlists[wishlistId].userId) ==>
      r == Failure(401)
    ensures r.Success? <==>
      && JsValues.Truthy(wishlistName) && wishlistName.Str?
      && wishlistId in wishlists && caller == Some(wishlists[wishlistId].userId)
    ensures r.Success? ==> r.value == wishlistName.s && r.value != ""
  {
    if !JsValues.Truthy(wishlistName) then Failure(400)
    else if wishlistId !in wishlists then Failure(404)
    else if caller.None? || wishlists[wishlistId].userId != caller.value then Failure(401)
    else if !wishlistName.Str? then Failure(500)
    else Success(wishlistName.s)
  }

  /** Someone else's wishlist is refused with 401 whatever its new name. */
  lemma NonOwnerCannotRename(caller: Option<string>, wishlists: map<string, Wishlist>,
                             wishlistId: string, wishlistName: JsValues.Value)
    requires JsValues.Truthy(wishlistName) && wishlistId in wishlists
    requires caller != Some(wishlists[wishlistId].userId)
    ensures RenameCheck(caller, wishlists, wishlistId, wishlistName) == Failure(401)
  {
  }

  datatype RenameReply = RenameRefused(status: nat) | Renamed(wishlistName: string)

  /** The rename route: the token, the checks, then the one write. */
  method UpdateName(db: Db, authorization: Option<string>, identify: string -> CasinoMiddleware.Identity,
                    wishlistId: string, body: JsValues.Value)
    returns (reply: RenameReply)
    modifies db`wishlists
    ensures Caller(authorization, identify).Failure? ==>
      reply == RenameRefused(Caller(authorization, identify).error) && db.wishlists == old(db.wishlists)
    ensures Caller(authorization, identify).Success? ==>
      var check := RenameCheck(Caller(authorization, identify).value, old(db.wishlists), wishlistId,
                               JsValues.Get(body, "wishlistName"));
      && (check.Failure? ==> reply == RenameRefused(check.error) && db.wishlists == old(db.wishlists))
      && (check.Success? ==>
            && reply == Renamed(check.value)
            && db.wishlists == old(db.wishlists)[wishlistId := old(db.wishlists)[wishlistId].(wishlistName := check.value)])
  {
    var caller := Caller(authorization, identify);
    if caller.Failure? {
      return RenameRefused(caller.error);
    }
    var check := RenameCheck(caller.value, db.wishlists, wishlistId, JsValues.Get(body, "wishlistName"));
    if check.Failure? {
      return RenameRefused(check.error);
    }
    db.wishlists := db.wishlists[wishlistId := db.wishlists[wishlistId].(wishlistName := check.value)];
    reply := Renamed(check.value);
  }

  // ---------------------------------------------------------------------
  // /wishlist/batch
  // ---------------------------------------------------------------------

  /** One entry of the batch, once checked. */
  datatype Rename = Rename(wishlistId: string, wishlistName: string)

  /** `null` and `undefined` have no properties: reading one throws. */
  predicate Nullish(v: JsValues.Value)
  {
    v.Undefined? || v.Null?
  }

  /** An entry without a truthy `wishlistId` or `wishlistName`. */
  predicate Incomplete(v: JsValues.Value)
  {
    !JsValues.Truthy(JsValues.Get(v, "wishlistId")) || !JsValues.Truthy(JsValues.Get(v, "wishlistName"))
  }

  /** The entry check, in array order: the first entry that throws (500) or
      that is incomplete (400) decides; None when every entry is complete. */
  function ScanStatus(updates: seq<JsValues.Value>): (status: Option<nat>)
    ensures status.None? <==> forall k :: 0 <= k < |updates| ==> !Nullish(updates[k]) && !Incomplete(updates[k])
    ensures status.Some? ==> status.value == 400 || status.value == 500
  {
    if updates == [] then None
    else if Nullish(updates[0]) then Some(500)
    else if Incomplete(updates[0]) then Some(400)
    else
      var rest := ScanStatus(updates[1..]);
      assert forall k :: 1 <= k < |updates| ==> updates[k] == updates[1..][k - 1];
      rest
  }

  /** The ids `findMany({ where: { userId } })` returns; an absent user id is
      no filter at all, so then every wishlist is listed. */
  function OwnedIds(wishlists: map<string, Wishlist>, caller: Option<string>): (ids: set<string>)
    ensures forall id :: id in ids <==> id in wishlists && (caller.None? || wishlists[id].userId == caller.value)
  {
    set id | id in wishlists && (caller.None? || wishlists[id].userId == caller.value)
  }

  /** `userWishlistsIds.includes(update.wishlistId)`: the id must be a string. */
  predicate Owned(update: JsValues.Value, owned: set<string>)
  {
    JsValues.Get(update, "wishlistId").Str? && JsValues.Get(update, "wishlistId").s in owned
  }

  /** What the batch asks for, once every entry carries two strings. */
  function Renames(updates: seq<JsValues.Value>): (rs: seq<Rename>)
    requires forall k :: 0 <= k < |updates| ==>
      JsValues.Get(updates[k], "wishlistId").Str? && JsValues.Get(updates[k], "wishlistName").Str?
    ensures |rs| == |updates|
    ensures forall k :: 0 <= k < |updates| ==>
      rs[k] == Rename(JsValues.Get(updates[k], "wishlistId").s, JsValues.Get(updates[k], "wishlistName").s)
  {
    seq(|updates|, k requires 0 <= k < |updates| =>
      Rename(JsValues.Get(updates[k], "wishlistId").s, JsValues.Get(updates[k], "wishlistName").s))
  }

  /** The checks of the batch after the token, in order: the body must be a
      truthy array (400); the entry scan; every id owned (403); every name a
      string, or the transaction fails as a whole (500). */
  function BatchCheck(caller: Option<string>, wishlists: map<string, Wishlist>, body: JsValues.Value): (r: Result<seq<Rename>, nat>)
    ensures !body.Arr? ==> r == Failure(400)
    ensures r.Failure? ==> r.error in {400, 403, 500}
    ensures body.Arr? && ScanStatus(body.elems).Some? ==> r == Failure(ScanStatus(body.elems).value)
    ensures body.Arr? && ScanStatus(body.elems).None?
            && !(forall k :: 0 <= k < |body.elems| ==> Owned(body.elems[k], OwnedIds(wishlists, caller))) ==>
      r == Failure(403)
    ensures r.Success? ==>
      && body.Arr? && ScanStatus(body.elems).None?
      && (forall k :: 0 <= k < |body.elems| ==>
            JsValues.Get(body.elems[k], "wishlistId").Str? && JsValues.Get(body.elems[k], "wishlistName").Str?)
      && r.value == Renames(body.elems)
      && forall k :: 0 <= k < |r.value| ==>
           && r.value[k].wishlistId in wishlists
           && (caller.Some? ==> wishlists[r.value[k].wishlistId].userId == caller.value)
           && r.value[k].wishlistName != ""
  {
    if !JsValues.Truthy(body) || !body.Arr? then Failure(400)
    else
      var updates := body.elems;
      match ScanStatus(updates)
      case Some(status) => Failure(status)
      case None =>
        var owned := OwnedIds(wishlists, caller);
        if !(forall k :: 0 <= k < |updates| ==> Owned(updates[k], owned)) then Failure(403)
        else if !(forall k :: 0 <= k < |updates| ==> JsValues.Get(updates[k], "wishlistName").Str?) then Failure(500)
        else Success(Renames(updates))
  }

  /** An entry naming a wishlist of another user refuses the whole batch. */
  lemma ForeignWishlistRefusesBatch(caller: string, wishlists: map<string, Wishlist>, updates: seq<JsValues.Value>, k: nat)
    requires k < |updates| && ScanStatus(updates).None?
    requires JsValues.Get(updates[k], "wishlistId").Str?
    requires var id := JsValues.Get(updates[k], "wishlistId").s; id in wishlists && wishlists[id].userId != caller
    ensures BatchCheck(Some(caller), wishlists, JsValues.Arr(updates)) == Failure(403)
  {
    assert JsValues.Truthy(JsValues.Arr(updates));
    assert !Owned(updates[k], OwnedIds(wishlists, Some(caller)));
    assert !(forall m :: 0 <= m < |updates| ==> Owned(updates[m], OwnedIds(wishlists, Some(caller))));
  }

  /** The transaction's writes, in order, over a table holding every id. */
  function ApplyRenames(wishlists: map<string, Wishlist>, rs: seq<Rename>): (after: map<string, Wishlist>)
    requires forall k :: 0 <= k < |rs| ==> rs[k].wishlistId in wishlists
    ensures after.Keys == wishlists.Keys
    ensures forall id :: id in wishlists ==> after[id].userId == wishlists[id].userId
  {
    if rs == [] then wishlists
    else
      var before := ApplyRenames(wishlists, rs[..|rs| - 1]);
      var last := rs[|rs| - 1];
      before[last.wishlistId := before[last.wishlistId].(wishlistName := last.wishlistName)]
  }

  /** The name the renames leave on `id`: the last one aimed at it, or
      `current` when none is. */
  function LastName(rs: seq<Rename>, id: string, current: string): string
  {
    if rs == [] then current
    else if rs[|rs| - 1].wishlistId == id then rs[|rs| - 1].wishlistName
    else LastName(rs[..|rs| - 1], id, current)
  }

  /** The last write to a wishlist wins; a wishlist no entry names keeps its name. */
  lemma {:induction false} ApplyRenamesLastWriteWins(wishlists: map<string, Wishlist>, rs: seq<Rename>, id: string)
    requires forall k :: 0 <= k < |rs| ==> rs[k].wishlistId in wishlists
    requires id in wishlists
    ensures ApplyRenames(wishlists, rs)[id].wishlistName == LastName(rs, id, wishlists[id].wishlistName)
  {
    if rs != [] {
      ApplyRenamesLastWriteWins(wishlists, rs[..|rs| - 1], id);
    }
  }

  /** No entry aimed at `id` leaves its name as it was. */
  lemma {:induction false} LastNameOfUntouched(rs: seq<Rename>, id: string, current: string)
    requires forall k :: 0 <= k < |rs| ==> rs[k].wishlistId != id
    ensures LastName(rs, id, current) == current
  {
    if rs != [] {
      LastNameOfUntouched(rs[..|rs| - 1], id, current);
    }
  }

  /** `LastName` picks the entry with the largest index aimed at `id`. */
  lemma {:induction false} LastNameIsLastEntry(rs: seq<Rename>, id: string, current: string, k: nat)
    requires k < |rs| && rs[k].wishlistId == id
    requires forall m :: k < m < |rs| ==> rs[m].wishlistId != id
    ensures LastName(rs, id, current) == rs[k].wishlistName
  {
    if k < |rs| - 1 {
      var init := rs[..|rs| - 1];
      assert init[k] == rs[k];
      assert forall m :: k < m < |init| ==> init[m] == rs[m];
      LastNameIsLastEntry(init, id, current, k);
    }
  }

  /** After a successful batch, a wishlist no entry names is unchanged;
      in particular every wishlist of another user is untouched. */
  lemma BatchLeavesOthersAlone(caller: Option<string>, wishlists: map<string, Wishlist>, body: JsValues.Value, id: string)
    requires BatchCheck(caller, wishlists, body).Success?
    requires id in wishlists
    requires (caller.Some? && wishlists[id].userId != caller.value)
          || forall k :: 0 <= k < |body.elems| ==> JsValues.Get(body.elems[k], "wishlistId") != JsValues.Str(id)
    ensures ApplyRenames(wishlists, BatchCheck(caller, wishlists, body).value)[id] == wishlists[id]
  {
    var rs := BatchCheck(caller, wishlists, body).value;
    assert forall k :: 0 <= k < |rs| ==> rs[k].wishlistId != id;
    ApplyRenamesLastWriteWins(wishlists, rs, id);
    LastNameOfUntouched(rs, id, wishlists[id].wishlistName);
  }

  /** After a successful batch, the wishlist of entry `k` carries that
      entry's name when no later entry names the same wishlist; its owner
      is unchanged. */
  lemma BatchLastEntryWins(caller: Option<string>, wishlists: map<string, Wishlist>, body: JsValues.Value, k: nat)
    requires BatchCheck(caller, wishlists, body).Success?
    requires k < |body.elems|
    requires forall m :: k < m < |body.elems| ==>
      JsValues.Get(body.elems[m], "wishlistId") != JsValues.Get(body.elems[k], "wishlistId")
    ensures var rs := BatchCheck(caller, wishlists, body).value;
      var id := rs[k].wishlistId;
      ApplyRenames(wishlists, rs)[id] == wishlists[id].(wishlistName := rs[k].wishlistName)
  {
    var rs := BatchCheck(caller, wishlists, body).value;
    var id := rs[k].wishlistId;
    assert forall m :: k < m < |rs| ==> rs[m].wishlistId != id;
    ApplyRenamesLastWriteWins(wishlists, rs, id);
    LastNameIsLastEntry(rs, id, wishlists[id].wishlistName, k);
  }

  datatype BatchReply =
    | BatchRefused(status: nat)
    | BatchRenamed(updated: seq<Wishlist>)   // the row each write returned, in order

  /** `prisma.$transaction(updates.map(update => wishlist.update(...)))`:
      one write per rename, in order, each returning the row it wrote. */
  method ApplyBatch(db: Db, rs: seq<Rename>) returns (updated: seq<Wishlist>)
    requires forall k :: 0 <= k < |rs| ==> rs[k].wishlistId in db.wishlists
    modifies db`wishlists
    ensures db.wishlists == ApplyRenames(old(db.wishlists), rs)
    ensures |updated| == |rs|
    ensures forall k :: 0 <= k < |rs| ==>
      updated[k] == Wishlist(old(db.wishlists)[rs[k].wishlistId].userId, rs[k].wishlistName)
  {
    ghost var start := db.wishlists;
    updated := [];
    var j := 0;
    while j < |rs|
      invariant 0 <= j <= |rs|
      invariant db.wishlists == ApplyRenames(start, rs[..j])
      invariant |updated| == j
      invariant forall k :: 0 <= k < j ==>
        updated[k] == Wishlist(start[rs[k].wishlistId].userId, rs[k].wishlistName)
    {
      var r := rs[j];
      RenameStep(start, rs, j);
      var written := db.wishlists[r.wishlistId].(wishlistName := r.wishlistName);
      db.wishlists := db.wishlists[r.wishlistId := written];
      ghost var prev := updated;
      updated := updated + [written];
      forall k | 0 <= k <= j
        ensures updated[k] == Wishlist(start[rs[k].wishlistId].userId, rs[k].wishlistName)
      {
        if k < j {
          assert updated[k] == prev[k];
        }
      }
      j := j + 1;
    }
    assert rs[..|rs|] == rs;
  }

  /** One more write of the transaction: the rename at `j` applied to the
      table the earlier ones left. */
  lemma RenameStep(wishlists: map<string, Wishlist>, rs: seq<Rename>, j: nat)
    requires forall k :: 0 <= k < |rs| ==> rs[k].wishlistId in wishlists
    requires j < |rs|
    ensures var before := ApplyRenames(wishlists, rs[..j]);
      && rs[j].wishlistId in before
      && before[rs[j].wishlistId].userId == wishlists[rs[j].wishlistId].userId
      && ApplyRenames(wishlists, rs[..j + 1])
         == before[rs[j].wishlistId := before[rs[j].wishlistId].(wishlistName := rs[j].wishlistName)]
  {
    assert rs[..j + 1][..j] == rs[..j];
  }

  /** The batch route: the token; the body; the entry scan, a loop with an
      early return; the ownership and name checks; then the transaction. */
  method BatchRename(db: Db, authorization: Option<string>, identify: string -> CasinoMiddleware.Identity,
                     body: JsValues.Value)
    returns (reply: BatchReply)
    modifies db`wishlists
    ensures Caller(authorization, identify).Failure? ==>
      reply == BatchRefused(Caller(authorization, identify).error) && db.wishlists == old(db.wishlists)
    ensures Caller(authorization, identify).Success? ==>
      var check := BatchCheck(Caller(authorization, identify).value, old(db.wishlists), body);
      && (check.Failure? ==> reply == BatchRefused(check.error) && db.wishlists == old(db.wishlists))
      && (check.Success? ==>
            && db.wishlists == ApplyRenames(old(db.wishlists), check.value)
            && reply.BatchRenamed? && |reply.updated| == |check.value|
            && forall k :: 0 <= k < |check.value| ==>
                 reply.updated[k] == Wishlist(old(db.wishlists)[check.value[k].wishlistId].userId, check.value[k].wishlistName))
  {
    var caller := Caller(authorization, identify);
    if caller.Failure? {
      return BatchRefused(caller.error);
    }
    if !JsValues.Truthy(body) || !body.Arr? {
      return BatchRefused(400);
    }
    var updates := body.elems;
    var i := 0;
    while i < |updates|
      invariant 0 <= i <= |updates|
      invariant ScanStatus(updates) == ScanStatus(updates[i..])
    {
      var update := updates[i];
      if Nullish(update) {
        return BatchRefused(500);
      }
      if Incomplete(update) {
        return BatchRefused(400);
      }
      assert updates[i..][1..] == updates[i + 1..];
      i := i + 1;
    }
    assert ScanStatus(updates).None?;
    var owned := OwnedIds(db.wishlists, caller.value);
    if !(forall k :: 0 <= k < |updates| ==> Owned(updates[k], owned)) {
      return BatchRefused(403);
    }
    if !(forall k :: 0 <= k < |updates| ==> JsValues.Get(updates[k], "wishlistName").Str?) {
      return BatchRefused(500);
    }
    var rs := Renames(updates);
    assert BatchCheck(caller.value, db.wishlists, body) == Success(rs);
    var updated := ApplyBatch(db, rs);
    reply := BatchRenamed(updated);
  }
}
