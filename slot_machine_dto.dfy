/** `SlotMachinePOST_DTO`: the user id, the bet and the crypto id the casino
    middleware checks before any game runs. */
module SlotMachineDto {
  import opened JsValues
  import opened ClassValidator

  datatype SlotMachinePost = SlotMachinePost(userID: Value, bet: Value, cryptoId: Value)

  /** `userID`: `@IsUUID('4')` and `@IsString()`. */
  predicate UserIdValid(d: SlotMachinePost)
  {
    IsUuidV4(d.userID) && IsString(d.userID)
  }

  /** `bet`: `@IsPositive()`. */
  predicate BetValid(d: SlotMachinePost)
  {
    IsPositive(d.bet)
  }

  /** `cryptoId`: `@IsString()` and `@MinLength(1)`. */
  predicate CryptoIdValid(d: SlotMachinePost)
  {
    IsString(d.cryptoId) && MinLength(d.cryptoId, 1)
  }

  /** `validate(dto)`: the failing properties, in declaration order. */
  function Validate(d: SlotMachinePost): (errors: seq<string>)
    ensures "userID" in errors <==> !UserIdValid(d)
    ensures "bet" in errors <==> !BetValid(d)
    ensures "cryptoId" in errors <==> !CryptoIdValid(d)
    ensures forall x :: x in errors ==> x in ["userID", "bet", "cryptoId"]
  {
    var names := ["userID", "bet", "cryptoId"];
    var ok := [UserIdValid(d), BetValid(d), CryptoIdValid(d)];
    ReportNamesFailures(names, ok, 0);
    ReportNamesFailures(names, ok, 1);
    ReportNamesFailures(names, ok, 2);
    Report(names, ok)
  }

  /** The DTO passes exactly when all three property constraints hold; then
      the user id is a 36-character UUID string, the bet is a positive number
      and the crypto id a non-empty string. */
  lemma ValidIffAllConstraints(d: SlotMachinePost)
    ensures Validate(d) == [] <==> UserIdValid(d) && BetValid(d) && CryptoIdValid(d)
    ensures Validate(d) == [] ==>
      && d.userID.Str? && |d.userID.s| == 36 && d.userID.s[14] == '4'
      && (d.bet.Num? ==> d.bet.n > 0.0)
      && d.cryptoId.Str? && d.cryptoId.s != ""
  {
    if Validate(d) == [] {
      assert "userID" !in Validate(d);
      assert "bet" !in Validate(d);
      assert "cryptoId" !in Validate(d);
    }
  }

  /** Once the bet is a positive finite number and the crypto id a non-empty
      string, as the casino middleware has already checked, only the user id
      and the crypto id can still fail, the crypto id exactly when it holds
      nothing but variation selectors; with any other character in it, the
      user id is the only property left that can fail. */
  lemma OnlyUserIdCanFailAfterMiddlewareChecks(userID: Value, bet: real, cryptoId: string)
    requires bet > 0.0 && cryptoId != ""
    ensures var errors := Validate(SlotMachinePost(userID, Num(bet), Str(cryptoId)));
      && (forall x :: x in errors ==> x == "userID" || x == "cryptoId")
      && ("cryptoId" in errors <==> ClassValidator.ValidatorLength(cryptoId) == 0)
    ensures ClassValidator.ValidatorLength(cryptoId) >= 1 ==>
      var errors := Validate(SlotMachinePost(userID, Num(bet), Str(cryptoId)));
      errors == [] || errors == ["userID"]
  {
    var d := SlotMachinePost(userID, Num(bet), Str(cryptoId));
    assert BetValid(d);
  }

  /** A crypto id of one variation selector is non-empty, so it passes the
      middleware's own check, yet `@MinLength(1)` refuses it. */
  lemma LoneSelectorCryptoIdRefused(userID: Value, bet: real)
    requires bet > 0.0
    ensures "cryptoId" in Validate(SlotMachinePost(userID, Num(bet), Str("\U{FE0F}")))
  {
    assert ClassValidator.VariationSelector("\U{FE0F}"[0]);
  }
}
