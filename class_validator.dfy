/** The class-validator decorators the data-transfer objects use, each as a
    predicate on the property's value, with the library's default options
    (`NaN` and `Infinity` are not numbers for `IsNumber`, `IsPositive`, `Min`
    and `Max` only look at `typeof value === "number"`). */
module ClassValidator {
  import opened JsValues

  /** `@IsOptional()`: a `null` or `undefined` value skips every other
      constraint of the property. */
  predicate Absent(v: Value)
  {
    v.Undefined? || v.Null?
  }

  predicate IsString(v: Value)
  {
    v.Str?
  }

  /** `@IsNumber()` with default options: a finite number. */
  predicate IsNumber(v: Value)
  {
    v.Num?
  }

  /** `@IsPositive()`: `typeof v === "number" && v > 0`, so `+Infinity` passes. */
  predicate IsPositive(v: Value)
  {
    (v.Num? && v.n > 0.0) || v == Infinity(false)
  }

  /** `@Min(m)`: `typeof v === "number" && v >= m`. */
  predicate Min(v: Value, m: real)
  {
    (v.Num? && v.n >= m) || v == Infinity(false)
  }

  /** `@Max(m)`: `typeof v === "number" && v <= m`. */
  predicate Max(v: Value, m: real)
  {
    (v.Num? && v.n <= m) || v == Infinity(true)
  }

  /** The variation selectors U+FE0E and U+FE0F, which validator.js's
      `isLength` does not count. */
  predicate VariationSelector(c: char)
  {
    c == '\U{FE0E}' || c == '\U{FE0F}'
  }

  /** The length `isLength` measures: `.length` less the variation selectors
      and less one per surrogate pair. A `char` here is one code point, so a
      surrogate pair is already a single character and only the selectors are
      left to skip. */
  function ValidatorLength(s: string): (n: nat)
    ensures n <= |s|
    ensures n == 0 <==> forall i :: 0 <= i < |s| ==> VariationSelector(s[i])
    ensures (forall i :: 0 <= i < |s| ==> !VariationSelector(s[i])) ==> n == |s|
  {
    if s == [] then 0
    else (if VariationSelector(s[0]) then 0 else 1) + ValidatorLength(s[1..])
  }

  /** `@MinLength(k)`: a string whose `isLength` length is at least `k`. */
  predicate MinLength(v: Value, k: nat)
  {
    v.Str? && ValidatorLength(v.s) >= k
  }

  /** `@IsNotEmpty()`: anything but `""`, `null` and `undefined`. */
  predicate IsNotEmpty(v: Value)
  {
    v != Str("") && v != Null && v != Undefined
  }

  predicate IsArray(v: Value)
  {
    v.Arr?
  }

  predicate ArrayMinSize(v: Value, k: nat)
  {
    v.Arr? && |v.elems| >= k
  }

  predicate ArrayMaxSize(v: Value, k: nat)
  {
    v.Arr? && |v.elems| <= k
  }

  /** `@IsEnum(E)` for a string enum: one of the enum's values. */
  predicate IsEnum(v: Value, values: set<string>)
  {
    v.Str? && v.s in values
  }

  /** A number constraint with `{ each: true }`: on an array it must hold of
      every element, on any other value of the value itself. */
  predicate EachNumberIn(v: Value, lo: real, hi: real)
  {
    if v.Arr? then
      forall i :: 0 <= i < |v.elems| ==>
        IsNumber(v.elems[i]) && Min(v.elems[i], lo) && Max(v.elems[i], hi)
    else IsNumber(v) && Min(v, lo) && Max(v, hi)
  }

  predicate HexDigit(c: char)
  {
    ('0' <= c <= '9') || ('a' <= c <= 'f') || ('A' <= c <= 'F')
  }

  /** The shape `xxxxxxxx-xxxx-4xxx-Yxxx-xxxxxxxxxxxx` of a version 4 UUID:
      36 characters, hyphens at 8, 13, 18 and 23, hex digits elsewhere, the
      version digit `4` at 14 and a variant digit 8, 9, A or B at 19, letters
      in either case. */
  predicate UuidV4(s: string)
  {
    && |s| == 36
    && s[8] == '-' && s[13] == '-' && s[18] == '-' && s[23] == '-'
    && (forall i :: 0 <= i < 36 && i != 8 && i != 13 && i != 18 && i != 23 ==> HexDigit(s[i]))
    && s[14] == '4'
    && s[19] in "89abAB"
  }

  /** `@IsUUID('4')`. */
  predicate IsUuidV4(v: Value)
  {
    v.Str? && UuidV4(v.s)
  }

  /** The error list of `validate`: the names of the properties that fail at
      least one of their constraints, in declaration order. */
  function Report(names: seq<string>, ok: seq<bool>): (errors: seq<string>)
    requires |names| == |ok|
    ensures |errors| <= |names|
    ensures forall x :: x in errors ==> x in names
    ensures errors == [] <==> forall i :: 0 <= i < |ok| ==> ok[i]
    ensures forall i :: 0 <= i < |ok| && !ok[i] ==> names[i] in errors
  {
    if names == [] then []
    else (if ok[0] then [] else [names[0]]) + Report(names[1..], ok[1..])
  }

  /** When the property names are distinct, a name is reported exactly when
      its property fails. */
  lemma {:induction false} ReportNamesFailures(names: seq<string>, ok: seq<bool>, i: nat)
    requires |names| == |ok| && i < |names|
    requires forall j, k :: 0 <= j < k < |names| ==> names[j] != names[k]
    ensures names[i] in Report(names, ok) <==> !ok[i]
  {
    if i == 0 {
      assert names[0] !in names[1..];
    } else {
      ReportNamesFailures(names[1..], ok[1..], i - 1);
      assert names[i] == names[1..][i - 1];
    }
  }
}
