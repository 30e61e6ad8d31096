/** `BetChoice` and `RouletteDTO`: the roulette bet a player submits, a bet
    type and, for the number bets, the numbers covered. */
module RouletteDto {
  import opened Wrappers
  import opened JsValues
  import opened ClassValidator

  datatype BetType = Red | Black | Green | Straight | Split | Street | Corner | Line

  /** The string values of the `BetType` enum. */
  const BetTypeNames: set<string> := {"Red", "Black", "Green", "Straight", "Split", "Street", "Corner", "Line"}

  function Name(t: BetType): (name: string)
    ensures name in BetTypeNames
  {
    match t
    case Red => "Red"
    case Black => "Black"
    case Green => "Green"
    case Straight => "Straight"
    case Split => "Split"
    case Street => "Street"
    case Corner => "Corner"
    case Line => "Line"
  }

  /** The enum member with a given string value. */
  function Parse(s: string): (t: Option<BetType>)
    ensures t.Some? <==> s in BetTypeNames
    ensures t.Some? ==> Name(t.value) == s
  {
    if s == "Red" then Some(Red)
    else if s == "Black" then Some(Black)
    else if s == "Green" then Some(Green)
    else if s == "Straight" then Some(Straight)
    else if s == "Split" then Some(Split)
    else if s == "Street" then Some(Street)
    else if s == "Corner" then Some(Corner)
    else if s == "Line" then Some(Line)
    else None
  }

  lemma ParseName(t: BetType)
    ensures Parse(Name(t)) == Some(t)
  {
  }

  predicate IsColour(t: BetType)
  {
    t == Red || t == Black || t == Green
  }

  /** The largest number of numbers each number bet may cover, from the
      `ArrayMaxSize` group of the type; colour bets have none. */
  function MaxNumbers(t: BetType): (m: nat)
    ensures IsColour(t) <==> m == 0
    ensures m <= 6
  {
    match t
    case Straight => 1
    case Split => 2
    case Street => 3
    case Corner => 4
    case Line => 6
    case _ => 0
  }

  datatype BetChoice = BetChoice(betType: Value, numbers: Value)

  /** `type`: `@IsEnum(BetType)`. */
  predicate TypeValid(b: BetChoice)
  {
    IsEnum(b.betType, BetTypeNames)
  }

  /** The constraints of `numbers` that carry no group: an array of numbers
      in [0, 36] with at least one element. */
  predicate NumbersShape(v: Value)
  {
    IsArray(v) && EachNumberIn(v, 0.0, 36.0) && ArrayMinSize(v, 1)
  }

  // ---------------------------------------------------------------------
  // As written: `validate(betChoice)` is called without groups, and
  // class-validator then applies every decorator, grouped or not. All five
  // `ArrayMaxSize` bounds apply at once, and so does `@IsOptional`.

  predicate NumbersValidAsWritten(b: BetChoice)
  {
    Absent(b.numbers) ||
    (NumbersShape(b.numbers)
      && ArrayMaxSize(b.numbers, 1) && ArrayMaxSize(b.numbers, 2) && ArrayMaxSize(b.numbers, 3)
      && ArrayMaxSize(b.numbers, 4) && ArrayMaxSize(b.numbers, 6))
  }

  /** `validate(betChoice)` as the roulette handlers call it: the failing
      properties, in declaration order. */
  function ValidateAsWritten(b: BetChoice): (errors: seq<string>)
    ensures "type" in errors <==> !TypeValid(b)
    ensures "numbers" in errors <==> !NumbersValidAsWritten(b)
  {
    var names := ["type", "numbers"];
    var ok := [TypeValid(b), NumbersValidAsWritten(b)];
    ReportNamesFailures(names, ok, 0);
    ReportNamesFailures(names, ok, 1);
    Report(names, ok)
  }

  /** As written, a bet that passes covers at most one number, whatever its type. */
  lemma AsWrittenAllowsAtMostOneNumber(b: BetChoice)
    requires ValidateAsWritten(b) == [] && b.numbers.Arr?
    ensures |b.numbers.elems| == 1
  {
    assert "numbers" !in ValidateAsWritten(b);
  }

  /** As written, a split on two numbers is rejected. */
  lemma AsWrittenRejectsTwoNumberSplit()
    ensures ValidateAsWritten(BetChoice(Str("Split"), Arr([Num(1.0), Num(2.0)]))) != []
  {
    var b := BetChoice(Str("Split"), Arr([Num(1.0), Num(2.0)]));
    assert !ArrayMaxSize(b.numbers, 1);
  }

  /** As written, a straight bet without any number is accepted. */
  lemma AsWrittenAcceptsStraightWithoutNumbers()
    ensures ValidateAsWritten(BetChoice(Str("Straight"), Undefined)) == []
  {
    var b := BetChoice(Str("Straight"), Undefined);
    assert TypeValid(b) && NumbersValidAsWritten(b);
  }

  /** `validate(validatedBetChoice.betChoice)` as the handlers call it: a
      `BetChoice` instance is checked with every decorator, as above; a value
      that is no instance has no validation metadata and fails as an unknown
      value. */
  function ValidateBetChoice(betChoice: Option<BetChoice>): (errors: seq<string>)
    ensures errors == [] <==>
      betChoice.Some? && TypeValid(betChoice.value) && NumbersValidAsWritten(betChoice.value)
  {
    if betChoice.Some? then ValidateAsWritten(betChoice.value) else ["unknownValue"]
  }

  // ---------------------------------------------------------------------
  // As intended by the declared groups and the `ArrayMinSize` message: the
  // maximum is the one of the bet's own type, numbers are required for the
  // number bets and optional only for the colour bets.

  predicate NumbersValidForType(t: BetType, v: Value)
  {
    if IsColour(t) then Absent(v) || NumbersShape(v)
    else NumbersShape(v) && ArrayMaxSize(v, MaxNumbers(t))
  }

  /** The intended validity of a bet choice. */
  predicate ValidBetChoice(b: BetChoice)
  {
    TypeValid(b) && NumbersValidForType(Parse(b.betType.s).value, b.numbers)
  }

  /** The intended error list. */
  function Validate(b: BetChoice): (errors: seq<string>)
    ensures errors == [] <==> ValidBetChoice(b)
    ensures "type" in errors <==> !TypeValid(b)
  {
    var numbersOk := TypeValid(b) ==> NumbersValidForType(Parse(b.betType.s).value, b.numbers);
    var names := ["type", "numbers"];
    var ok := [TypeValid(b), numbersOk];
    ReportNamesFailures(names, ok, 0);
    Report(names, ok)
  }

  /** An intended-valid number bet covers between one and its type's maximum
      of numbers, each a finite number in [0, 36]; a
      colour bet may leave the numbers out. */
  lemma ValidNumberBetCardinality(b: BetChoice)
    requires ValidBetChoice(b)
    ensures var t := Parse(b.betType.s).value;
      !IsColour(t) ==>
        (&& b.numbers.Arr? && 1 <= |b.numbers.elems| <= MaxNumbers(t)
         && forall i :: 0 <= i < |b.numbers.elems| ==>
              b.numbers.elems[i].Num? && 0.0 <= b.numbers.elems[i].n <= 36.0)
  {
  }

  /** The intended validator accepts a two-number split and rejects a
      straight bet without numbers. */
  lemma IntendedSplitAndStraight()
    ensures Validate(BetChoice(Str("Split"), Arr([Num(1.0), Num(2.0)]))) == []
    ensures Validate(BetChoice(Str("Straight"), Undefined)) != []
  {
    var split := BetChoice(Str("Split"), Arr([Num(1.0), Num(2.0)]));
    assert Parse("Split") == Some(Split);
    assert ValidBetChoice(split);
    var straight := BetChoice(Str("Straight"), Undefined);
    assert Parse("Straight") == Some(Straight);
    assert !ValidBetChoice(straight);
  }

  /** A choice the intended validator accepts with the numbers left out or
      with a single number is accepted as written too. */
  lemma IntendedSingleNumberAgreesWithAsWritten(b: BetChoice)
    requires ValidBetChoice(b) && (Absent(b.numbers) || (b.numbers.Arr? && |b.numbers.elems| == 1))
    ensures ValidateAsWritten(b) == []
  {
    assert NumbersValidAsWritten(b);
  }

  /** Where the two validators part, for a valid type. Only as written is a
      number bet without numbers accepted; only as intended are two or more
      numbers accepted, up to the type's maximum for a number bet and in any
      count for a colour bet. On every other choice they agree. */
  lemma ValidatorsDisagreeExactly(b: BetChoice)
    requires TypeValid(b)
    ensures var t := Parse(b.betType.s).value;
      (ValidateAsWritten(b) == [] && Validate(b) != []) <==> (Absent(b.numbers) && !IsColour(t))
    ensures var t := Parse(b.betType.s).value;
      (Validate(b) == [] && ValidateAsWritten(b) != []) <==>
        (&& b.numbers.Arr? && NumbersShape(b.numbers) && |b.numbers.elems| >= 2
         && (IsColour(t) || |b.numbers.elems| <= MaxNumbers(t)))
  {
    var t := Parse(b.betType.s).value;
    assert Validate(b) == [] <==> NumbersValidForType(t, b.numbers);
    assert ValidateAsWritten(b) == [] <==> NumbersValidAsWritten(b) by {
      assert "numbers" in ValidateAsWritten(b) <==> !NumbersValidAsWritten(b);
    }
  }

  /** A red bet that names two numbers passes the intended validator and is
      refused as written, because every grouped maximum applies. */
  lemma ColourWithTwoNumbersDisagrees()
    ensures Validate(BetChoice(Str("Red"), Arr([Num(1.0), Num(2.0)]))) == []
    ensures ValidateAsWritten(BetChoice(Str("Red"), Arr([Num(1.0), Num(2.0)]))) != []
  {
    var b := BetChoice(Str("Red"), Arr([Num(1.0), Num(2.0)]));
    assert Parse("Red") == Some(Red);
    assert ValidBetChoice(b);
    assert !ArrayMaxSize(b.numbers, 1);
  }

  /** `RouletteDTO`: `betChoice` is validated as a nested `BetChoice`; a
      value that is not an object fails `@ValidateNested()`. */
  function ValidateRouletteDto(betChoice: Option<BetChoice>): (errors: seq<string>)
    ensures errors == [] <==> betChoice.Some? && ValidBetChoice(betChoice.value)
  {
    if betChoice.Some? && Validate(betChoice.value) == [] then [] else ["betChoice"]
  }
}
