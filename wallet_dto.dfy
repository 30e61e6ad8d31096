/** `WalletDTO`: the body of the legacy market's buy and sell routes. */
module WalletDto {
  import opened JsValues
  import opened ClassValidator

  datatype WalletBody = WalletBody(userId: Value, cryptoId: Value, quantity: Value)

  /** `userId`: `@IsUUID('4')`. */
  predicate UserIdValid(d: WalletBody)
  {
    IsUuidV4(d.userId)
  }

  /** `cryptoId`: `@MinLength(1)`. */
  predicate CryptoIdValid(d: WalletBody)
  {
    MinLength(d.cryptoId, 1)
  }

  /** `quantity`: `@IsPositive()`. */
  predicate QuantityValid(d: WalletBody)
  {
    IsPositive(d.quantity)
  }

  /** `validate(dto)`: the failing properties, in declaration order. */
  function Validate(d: WalletBody): (errors: seq<string>)
    ensures "userId" in errors <==> !UserIdValid(d)
    ensures "cryptoId" in errors <==> !CryptoIdValid(d)
    ensures "quantity" in errors <==> !QuantityValid(d)
    ensures forall x :: x in errors ==> x in ["userId", "cryptoId", "quantity"]
  {
    var names := ["userId", "cryptoId", "quantity"];
    var ok := [UserIdValid(d), CryptoIdValid(d), QuantityValid(d)];
    ReportNamesFailures(names, ok, 0);
    ReportNamesFailures(names, ok, 1);
    ReportNamesFailures(names, ok, 2);
    Report(names, ok)
  }

  /** The body passes exactly when all three constraints hold; then the
      quantity is positive (a finite positive number or `+Infinity`), the
      crypto id a non-empty string and the user id a UUID string. */
  lemma ValidIffAllConstraints(d: WalletBody)
    ensures Validate(d) == [] <==> UserIdValid(d) && CryptoIdValid(d) && QuantityValid(d)
    ensures Validate(d) == [] ==>
      && (d.quantity.Num? ==> d.quantity.n > 0.0)
      && (d.quantity.Num? || d.quantity == Infinity(false))
      && d.cryptoId.Str? && d.cryptoId.s != ""
      && d.userId.Str? && |d.userId.s| == 36
  {
    if Validate(d) == [] {
      assert "userId" !in Validate(d);
      assert "cryptoId" !in Validate(d);
      assert "quantity" !in Validate(d);
    }
  }

  /** A zero or negative quantity is always reported, whatever the other fields. */
  lemma NonPositiveQuantityRejected(d: WalletBody)
    requires d.quantity.Num? && d.quantity.n <= 0.0
    ensures "quantity" in Validate(d)
  {
  }

  /** A crypto id that holds only variation selectors has no length for
      `@MinLength(1)` and is reported; one other character is enough to pass. */
  lemma SelectorOnlyCryptoIdRejected(d: WalletBody)
    requires d.cryptoId.Str? && forall i :: 0 <= i < |d.cryptoId.s| ==> VariationSelector(d.cryptoId.s[i])
    ensures "cryptoId" in Validate(d)
  {
  }
}
