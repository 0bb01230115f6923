/** Pack sizes and ingredient quantities in base units: app/cart/units.py. */
module Units {
  import opened Collections

  datatype Base = Grams | Millilitres

  datatype Amount = Amount(base: Base, quantity: real)

  // ----------------------------------------------------------------- characters

  predicate IsSpace(c: char) {
    c in {' ', '\t', '\n', '\r'}
  }

  predicate IsDigit(c: char) {
    '0' <= c <= '9'
  }

  predicate IsLetter(c: char) {
    'a' <= c <= 'z' || 'A' <= c <= 'Z'
  }

  /** `[\d.]`. */
  predicate IsNumeric(c: char) {
    IsDigit(c) || c == '.'
  }

  function Lower(s: string): string {
    seq(|s|, i requires 0 <= i < |s| => if 'A' <= s[i] <= 'Z' then s[i] - 'A' + 'a' else s[i])
  }

  /** The length of the longest prefix of characters that satisfy `p`. */
  function Run(s: string, p: char -> bool): (n: nat)
    ensures n <= |s|
  {
    if s == "" || !p(s[0]) then 0 else 1 + Run(s[1..], p)
  }

  function StripLeft(s: string): string {
    s[Run(s, IsSpace)..]
  }

  function StripRight(s: string): string {
    if s != "" && IsSpace(s[|s| - 1]) then StripRight(s[..|s| - 1]) else s
  }

  function Strip(s: string): string {
    StripRight(StripLeft(s))
  }

  // ------------------------------------------------------------------ the units

  function UnitBase(name: string): Option<Amount> {
    if name in {"g", "gm", "gram", "grams"} then Some(Amount(Grams, 1.0))
    else if name in {"kg", "kilogram", "kilograms"} then Some(Amount(Grams, 1000.0))
    else if name in {"ml", "millilitre", "millilitres", "milliliter", "milliliters"} then Some(Amount(Millilitres, 1.0))
    else if name in {"l", "litre", "litres", "liter", "liters"} then Some(Amount(Millilitres, 1000.0))
    else None
  }

  function NormalizeQuantity(quantity: real, unit: string): Option<Amount> {
    match UnitBase(Lower(Strip(unit)))
    case None => None
    case Some(one) => Some(Amount(one.base, quantity * one.quantity))
  }

  // ----------------------------------------------------------------- the numbers

  function DigitOf(c: char): nat
    requires IsDigit(c)
  {
    c as int - '0' as int
  }

  function DigitsValue(s: string): nat
    requires AllDigits(s)
  {
    if s == "" then 0 else 10 * DigitsValue(s[..|s| - 1]) + DigitOf(s[|s| - 1])
  }

  function PowerOfTen(n: nat): real {
    if n == 0 then 1.0 else 10.0 * PowerOfTen(n - 1)
  }

  lemma {:induction false} PowerPositive(n: nat)
    ensures PowerOfTen(n) > 0.0
  {
    if n > 0 {
      PowerPositive(n - 1);
    }
  }

  lemma {:induction false} RunAll(s: string, p: char -> bool)
    ensures forall i | 0 <= i < Run(s, p) :: p(s[i])
    ensures Run(s, p) < |s| ==> !p(s[Run(s, p)])
  {
    if s != "" && p(s[0]) {
      RunAll(s[1..], p);
    }
  }

  predicate AllDigits(s: string) {
    forall i | 0 <= i < |s| :: IsDigit(s[i])
  }

  /** `Decimal(s)` of a string of digits and points: at most one point, at least one digit. */
  function DecimalOf(s: string): Option<real> {
    var whole := s[..Run(s, IsDigit)];
    var rest := s[Run(s, IsDigit)..];
    var part := if rest == "" then "" else rest[1..];
    if (whole == "" && part == "") || !AllDigits(part) || (rest != "" && rest[0] != '.') then None
    else
      RunAll(s, IsDigit);
      PowerPositive(|part|);
      Some(DigitsValue(whole) as real + DigitsValue(part) as real / PowerOfTen(|part|))
  }

  // ---------------------------------------------------------------- the pattern

  datatype Quoted = Quoted(number: string, unit: string)

  /** The first match of digits and points, optional whitespace and letters, each as long as it goes. */
  function Search(s: string): Option<Quoted>
    decreases |s|
  {
    if s == "" then None else
      var number := Run(s, IsNumeric);
      if number == 0 then Search(s[1..]) else
        var rest := StripLeft(s[number..]);
        var unit := Run(rest, IsLetter);
        if unit == 0 then Search(s[number..]) else Some(Quoted(s[..number], rest[..unit]))
  }

  function Read(number: string, unit: string): Option<Amount> {
    match DecimalOf(number)
    case None => None
    case Some(quantity) => NormalizeQuantity(quantity, unit)
  }

  function ParsePackSize(s: string): Option<Amount> {
    match Search(s)
    case None => None
    case Some(q) => Read(q.number, q.unit)
  }

  lemma {:induction false} RunOver(a: string, b: string, p: char -> bool)
    requires (forall i | 0 <= i < |a| :: p(a[i])) && (b == "" || !p(b[0]))
    ensures Run(a + b, p) == |a|
  {
    if a != "" {
      assert (a + b)[1..] == a[1..] + b;
      RunOver(a[1..], b, p);
    } else {
      assert a + b == b;
    }
  }

  lemma {:induction false} SearchAtTheSize(number: string, gap: string, unit: string, after: string)
    requires number != "" && forall i | 0 <= i < |number| :: IsNumeric(number[i])
    requires forall i | 0 <= i < |gap| :: IsSpace(gap[i])
    requires unit != "" && forall i | 0 <= i < |unit| :: IsLetter(unit[i])
    requires after == "" || !IsLetter(after[0])
    ensures Search(number + (gap + (unit + after))) == Some(Quoted(number, unit))
  {
    var tail := gap + (unit + after);
    var s := number + tail;
    assert tail[0] == if gap != "" then gap[0] else unit[0];
    RunOver(number, tail, IsNumeric);
    assert s[|number|..] == tail && s[..|number|] == number;
    RunOver(gap, unit + after, IsSpace);
    assert tail[|gap|..] == unit + after;
    RunOver(unit, after, IsLetter);
    assert (unit + after)[..|unit|] == unit;
  }

  /** A size written as a number and a unit is read as that, whatever plain text stands before it. */
  lemma {:induction false} SearchFindsTheSize(before: string, number: string, gap: string, unit: string, after: string)
    requires forall i | 0 <= i < |before| :: !IsNumeric(before[i])
    requires number != "" && forall i | 0 <= i < |number| :: IsNumeric(number[i])
    requires forall i | 0 <= i < |gap| :: IsSpace(gap[i])
    requires unit != "" && forall i | 0 <= i < |unit| :: IsLetter(unit[i])
    requires after == "" || !IsLetter(after[0])
    ensures Search(before + number + gap + unit + after) == Some(Quoted(number, unit))
  {
    var s := before + number + gap + unit + after;
    if before != "" {
      assert s[1..] == before[1..] + number + gap + unit + after;
      assert s[0] == before[0];
      SearchFindsTheSize(before[1..], number, gap, unit, after);
    } else {
      assert s == number + (gap + (unit + after));
      SearchAtTheSize(number, gap, unit, after);
    }
  }

  lemma {:induction false} WholeNumber(s: string)
    requires s != "" && AllDigits(s)
    ensures DecimalOf(s) == Some(DigitsValue(s) as real)
  {
    RunOver(s, "", IsDigit);
    assert s + "" == s && s[..|s|] == s;
    assert PowerOfTen(0) == 1.0;
  }

  /** What a number with a point is worth. */
  function Worth(whole: string, part: string): real
    requires AllDigits(whole) && AllDigits(part)
  {
    PowerPositive(|part|);
    DigitsValue(whole) as real + DigitsValue(part) as real / PowerOfTen(|part|)
  }

  lemma {:induction false} PointedNumber(whole: string, part: string)
    requires AllDigits(whole) && AllDigits(part) && whole + part != ""
    ensures DecimalOf(whole + "." + part) == Some(Worth(whole, part))
  {
    var rest := "." + part;
    assert whole + "." + part == whole + rest;
    RunOver(whole, rest, IsDigit);
    assert (whole + rest)[..|whole|] == whole && (whole + rest)[|whole|..] == rest;
    assert rest[1..] == part;
  }

  /** Two points make no number. */
  lemma {:induction false} NotANumber(whole: string, part: string)
    requires AllDigits(whole) && '.' in part
    ensures DecimalOf(whole + "." + part) == None
  {
    var rest := "." + part;
    assert whole + "." + part == whole + rest;
    RunOver(whole, rest, IsDigit);
    assert (whole + rest)[|whole|..] == rest;
    assert rest[1..] == part;
    var i :| 0 <= i < |part| && part[i] == '.';
    assert !AllDigits(part);
  }

  lemma {:induction false} StripWord(unit: string)
    requires unit != "" && forall i | 0 <= i < |unit| :: IsLetter(unit[i])
    ensures Strip(unit) == unit
  {
    assert IsLetter(unit[0]) && IsLetter(unit[|unit| - 1]);
    assert Run(unit, IsSpace) == 0;
  }

  lemma {:induction false} DigitsAreNumeric(s: string)
    requires AllDigits(s)
    ensures forall i | 0 <= i < |s| :: IsNumeric(s[i])
  {
  }

  /** A text that starts with a size is read as that size. */
  lemma {:induction false} ReadAsWritten(number: string, gap: string, unit: string, after: string)
    requires number != "" && forall i | 0 <= i < |number| :: IsNumeric(number[i])
    requires forall i | 0 <= i < |gap| :: IsSpace(gap[i])
    requires unit != "" && forall i | 0 <= i < |unit| :: IsLetter(unit[i])
    requires after == "" || !IsLetter(after[0])
    ensures ParsePackSize(number + gap + unit + after) == Read(number, unit)
  {
    var s := number + gap + unit + after;
    assert s == number + (gap + (unit + after));
    SearchAtTheSize(number, gap, unit, after);
  }

  /** A whole number of a unit reads back as that much of it. */
  lemma {:induction false} WholeSizeReadsBack(number: string, gap: string, unit: string, after: string)
    requires number != "" && AllDigits(number)
    requires forall i | 0 <= i < |gap| :: IsSpace(gap[i])
    requires unit != "" && forall i | 0 <= i < |unit| :: IsLetter(unit[i])
    requires after == "" || !IsLetter(after[0])
    ensures ParsePackSize(number + gap + unit + after) == NormalizeQuantity(DigitsValue(number) as real, unit)
  {
    WholeNumber(number);
    DigitsAreNumeric(number);
    ReadAsWritten(number, gap, unit, after);
  }

  /** So does a number with a point, such as `1.5 kg`. */
  lemma {:induction false} PointedSizeReadsBack(whole: string, part: string, gap: string, unit: string, after: string)
    requires AllDigits(whole) && AllDigits(part) && whole + part != ""
    requires forall i | 0 <= i < |gap| :: IsSpace(gap[i])
    requires unit != "" && forall i | 0 <= i < |unit| :: IsLetter(unit[i])
    requires after == "" || !IsLetter(after[0])
    ensures ParsePackSize(whole + "." + part + gap + unit + after) == NormalizeQuantity(Worth(whole, part), unit)
  {
    PointedNumber(whole, part);
    DigitsAreNumeric(whole);
    DigitsAreNumeric(part);
    ReadAsWritten(whole + "." + part, gap, unit, after);
  }

  /** A size whose number has a second point has no amount. */
  lemma {:induction false} TwoPointsAreNoAmount(whole: string, part: string, gap: string, unit: string, after: string)
    requires AllDigits(whole) && '.' in part && forall i | 0 <= i < |part| :: IsNumeric(part[i])
    requires forall i | 0 <= i < |gap| :: IsSpace(gap[i])
    requires unit != "" && forall i | 0 <= i < |unit| :: IsLetter(unit[i])
    requires after == "" || !IsLetter(after[0])
    ensures ParsePackSize(whole + "." + part + gap + unit + after) == None
  {
    NotANumber(whole, part);
    DigitsAreNumeric(whole);
    ReadAsWritten(whole + "." + part, gap, unit, after);
  }

  // ------------------------------------------------------------- every unit

  lemma {:induction false} PlainWord(name: string)
    requires name != "" && forall i | 0 <= i < |name| :: 'a' <= name[i] <= 'z'
    ensures Lower(Strip(name)) == name
  {
    StripWord(name);
    assert Lower(name) == name;
  }

  predicate IsGram(name: string) {
    name == "g" || name == "gm" || name == "gram" || name == "grams"
  }

  predicate IsKilogram(name: string) {
    name == "kg" || name == "kilogram" || name == "kilograms"
  }

  predicate IsMillilitre(name: string) {
    name == "ml" || name == "millilitre" || name == "millilitres" || name == "milliliter" || name == "milliliters"
  }

  predicate IsLitre(name: string) {
    name == "l" || name == "litre" || name == "litres" || name == "liter" || name == "liters"
  }

  lemma {:induction false} BaseOfUnit(name: string)
    ensures IsGram(name) ==> UnitBase(name) == Some(Amount(Grams, 1.0))
    ensures IsKilogram(name) ==> UnitBase(name) == Some(Amount(Grams, 1000.0))
    ensures IsMillilitre(name) ==> UnitBase(name) == Some(Amount(Millilitres, 1.0))
    ensures IsLitre(name) ==> UnitBase(name) == Some(Amount(Millilitres, 1000.0))
    ensures !IsGram(name) && !IsKilogram(name) && !IsMillilitre(name) && !IsLitre(name) ==> UnitBase(name) == None
  {
    assert name in {"g", "gm", "gram", "grams"} ==> name[0] == 'g';
    assert name in {"kg", "kilogram", "kilograms"} ==> name[0] == 'k';
    assert name in {"ml", "millilitre", "millilitres", "milliliter", "milliliters"} ==> name[0] == 'm';
    assert name in {"l", "litre", "litres", "liter", "liters"} ==> name[0] == 'l';
  }

  lemma {:induction false} ByBase(quantity: real, unit: string, name: string)
    requires Lower(Strip(unit)) == name
    ensures NormalizeQuantity(quantity, unit) ==
      match UnitBase(name)
      case None => None
      case Some(one) => Some(Amount(one.base, quantity * one.quantity))
  {
  }

  /** What a unit is worth; a word that is none of them is worth nothing. */
  lemma {:induction false} EveryUnit(quantity: real, name: string)
    requires name != "" && forall i | 0 <= i < |name| :: 'a' <= name[i] <= 'z'
    ensures IsGram(name) ==> NormalizeQuantity(quantity, name) == Some(Amount(Grams, quantity))
    ensures IsKilogram(name) ==> NormalizeQuantity(quantity, name) == Some(Amount(Grams, 1000.0 * quantity))
    ensures IsMillilitre(name) ==> NormalizeQuantity(quantity, name) == Some(Amount(Millilitres, quantity))
    ensures IsLitre(name) ==> NormalizeQuantity(quantity, name) == Some(Amount(Millilitres, 1000.0 * quantity))
    ensures !IsGram(name) && !IsKilogram(name) && !IsMillilitre(name) && !IsLitre(name) ==>
      NormalizeQuantity(quantity, name) == None
  {
    PlainWord(name);
    ByBase(quantity, name, name);
    BaseOfUnit(name);
  }

  /** The same letters, capital or not. */
  predicate SpelledLike(word: string, name: string) {
    |word| == |name| && forall i | 0 <= i < |name| ::
      word[i] == name[i] || ('A' <= word[i] <= 'Z' && word[i] as int + 32 == name[i] as int)
  }

  lemma {:induction false} StripAround(left: string, word: string, right: string)
    requires forall i | 0 <= i < |left| :: IsSpace(left[i])
    requires forall i | 0 <= i < |right| :: IsSpace(right[i])
    requires word != "" && !IsSpace(word[0]) && !IsSpace(word[|word| - 1])
    ensures Strip(left + word + right) == word
  {
    assert left + word + right == left + (word + right);
    RunOver(left, word + right, IsSpace);
    assert (left + (word + right))[|left|..] == word + right;
    StripRightOf(word, right);
  }

  lemma {:induction false} StripRightOf(word: string, right: string)
    requires forall i | 0 <= i < |right| :: IsSpace(right[i])
    requires word != "" && !IsSpace(word[|word| - 1])
    ensures StripRight(word + right) == word
  {
    if right != "" {
      assert (word + right)[..|word + right| - 1] == word + right[..|right| - 1];
      StripRightOf(word, right[..|right| - 1]);
    } else {
      assert word + right == word;
    }
  }

  lemma {:induction false} LowerOfSpelling(word: string, name: string)
    requires (forall i | 0 <= i < |name| :: 'a' <= name[i] <= 'z') && SpelledLike(word, name)
    ensures Lower(word) == name && Lower(name) == name
    ensures forall i | 0 <= i < |word| :: !IsSpace(word[i])
    ensures forall i | 0 <= i < |name| :: !IsSpace(name[i])
  {
  }

  /** A unit may be written in any case and with space around it. */
  lemma {:induction false} UnitsInAnyCase(quantity: real, left: string, word: string, right: string, name: string)
    requires forall i | 0 <= i < |left| :: IsSpace(left[i])
    requires forall i | 0 <= i < |right| :: IsSpace(right[i])
    requires name != "" && (forall i | 0 <= i < |name| :: 'a' <= name[i] <= 'z') && SpelledLike(word, name)
    ensures NormalizeQuantity(quantity, left + word + right) == NormalizeQuantity(quantity, name)
  {
    LowerOfSpelling(word, name);
    StripAround(left, word, right);
    StripAround([], name, []);
    assert [] + name + [] == name;
    ByBase(quantity, left + word + right, name);
    ByBase(quantity, name, name);
  }

  // -------------------------------------------------------- digit after digit

  lemma {:induction false} NoDigits(s: string)
    requires s == ""
    ensures AllDigits(s) && DigitsValue(s) == 0
  {
  }

  lemma {:induction false} DigitsSnoc(s: string, d: char)
    requires AllDigits(s) && IsDigit(d)
    ensures AllDigits(s + [d]) && DigitsValue(s + [d]) == 10 * DigitsValue(s) + (d as int - 48)
  {
    assert (s + [d])[..|s|] == s;
  }

  /** So many of one. */
  function Times(one: Amount, n: real): Amount {
    Amount(one.base, n * one.quantity)
  }

  lemma {:induction false} Proportional(quantity: real, unit: string, one: Amount)
    requires NormalizeQuantity(1.0, unit) == Some(one)
    ensures NormalizeQuantity(quantity, unit) == Some(Times(one, quantity))
  {
    ByBase(1.0, unit, Lower(Strip(unit)));
    ByBase(quantity, unit, Lower(Strip(unit)));
    var base := UnitBase(Lower(Strip(unit))).value;
    assert 1.0 * base.quantity == base.quantity;
  }

  lemma {:induction false} ReadDigits(number: string, unit: string, one: Amount)
    requires number != "" && AllDigits(number) && NormalizeQuantity(1.0, unit) == Some(one)
    ensures Read(number, unit) == Some(Times(one, DigitsValue(number) as real))
  {
    WholeNumber(number);
    Proportional(DigitsValue(number) as real, unit, one);
  }

  lemma {:induction false} OneDigitValue(d: char)
    requires IsDigit(d)
    ensures AllDigits([d]) && DigitsValue([d]) == d as int - 48
  {
    var none := [];
    NoDigits(none);
    DigitsSnoc(none, d);
    assert none + [d] == [d];
  }

  /** One digit of a unit is that many of it. */
  lemma {:induction false} OneDigit(d: char, unit: string, one: Amount)
    requires IsDigit(d) && NormalizeQuantity(1.0, unit) == Some(one)
    ensures Read([d], unit) == Some(Times(one, (d as int - 48) as real))
  {
    OneDigitValue(d);
    ReadDigits([d], unit, one);
  }

  /** One more digit makes it ten times as much, and that digit more. */
  lemma {:induction false} NextDigit(number: string, d: char, unit: string, one: Amount)
    requires number != "" && AllDigits(number) && IsDigit(d) && NormalizeQuantity(1.0, unit) == Some(one)
    ensures Read(number, unit).Some?
    ensures Read(number + [d], unit)
      == Some(Amount(one.base, 10.0 * Read(number, unit).value.quantity + Times(one, (d as int - 48) as real).quantity))
  {
    DigitsSnoc(number, d);
    ReadDigits(number, unit, one);
    ReadDigits(number + [d], unit, one);
    TimesMore(one, DigitsValue(number), d as int - 48);
  }

  lemma {:induction false} TimesMore(one: Amount, n: nat, d: int)
    ensures Times(one, (10 * n + d) as real).quantity == 10.0 * Times(one, n as real).quantity + Times(one, d as real).quantity
  {
    var x, y, q := n as real, d as real, one.quantity;
    assert (10 * n + d) as real == 10.0 * x + y;
    assert (10.0 * x + y) * q == 10.0 * (x * q) + y * q;
  }

  /** A digit behind the point counts for a tenth of what it would count for one place before. */
  lemma {:induction false} NextDecimal(whole: string, part: string, d: char)
    requires AllDigits(whole) && AllDigits(part) && IsDigit(d)
    ensures PowerOfTen(|part|) > 0.0
    ensures Worth(whole, part + [d]) == Worth(whole, part) + (d as int - 48) as real / (10.0 * PowerOfTen(|part|))
    ensures Worth(whole, []) == DigitsValue(whole) as real
  {
    PowerPositive(|part|);
    DigitsSnoc(part, d);
    var none := [];
    NoDigits(none);
    TenthOf(DigitsValue(part) as real, (d as int - 48) as real, PowerOfTen(|part|));
  }

  lemma {:induction false} TenthOf(n: real, d: real, power: real)
    requires power > 0.0
    ensures (10.0 * n + d) / (10.0 * power) == n / power + d / (10.0 * power)
  {
    var x, y := n / power, d / (10.0 * power);
    assert x * power == n && y * (10.0 * power) == d;
    assert (x + y) * (10.0 * power) == 10.0 * (x * power) + y * (10.0 * power);
  }

  lemma {:induction false} KilogramsInGrams(quantity: real, kg: string)
    requires kg == "kg"
    ensures NormalizeQuantity(quantity, kg) == Some(Amount(Grams, quantity * 1000.0))
  {
    assert kg[0] == 'k' && kg[1] == 'g';
    EveryUnit(quantity, kg);
  }

  lemma {:induction false} OneAndAHalf(one: string, five: string)
    requires one == "1" && five == "5"
    ensures AllDigits(one) && AllDigits(five) && Worth(one, five) == 1.5
  {
    assert one[0] == '1' && five[0] == '5' && one[..0] == "" && five[..0] == "";
    assert DigitsValue(one[..0]) == 0 && DigitsValue(five[..0]) == 0;
    assert DigitsValue(one) == 1 && DigitsValue(five) == 5;
    assert PowerOfTen(0) == 1.0 && PowerOfTen(1) == 10.0;
  }

  lemma {:induction false} OneAndAHalfKilograms(one: string, five: string, kg: string)
    requires one == "1" && five == "5" && kg == "kg"
    ensures ParsePackSize(one + "." + five + " " + kg + "") == Some(Amount(Grams, 1500.0))
  {
    assert kg[0] == 'k' && kg[1] == 'g';
    OneAndAHalf(one, five);
    PointedSizeReadsBack(one, five, " ", kg, "");
    KilogramsInGrams(1.5, kg);
  }

  lemma {:induction false} NoUnitX(quantity: real, x: string)
    requires x == "x"
    ensures NormalizeQuantity(quantity, x) == None
  {
    StripWord(x);
    assert Lower(x) == x;
  }

  /** A multipack such as `2 x 500 g` is read as two of an unknown unit: no size at all. */
  lemma {:induction false} MultipackIsUnreadable(count: string, x: string, each: string)
    requires count != "" && AllDigits(count) && x == "x" && (each == "" || !IsLetter(each[0]))
    ensures ParsePackSize(count + " " + x + each) == None
  {
    assert x[0] == 'x' && |x| == 1;
    WholeSizeReadsBack(count, " ", x, each);
    NoUnitX(DigitsValue(count) as real, x);
  }
}
