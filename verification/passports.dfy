/** Day 4's passports: the loose record read from `key:value` pairs, the
    check that the required fields are present, and the conversion to a
    strict record that keeps only the fields whose values pass validation. */
module Passports {
  import opened Wrappers
  import opened Text
  import opened Seqs

  /** Blank lines separate passports in the puzzle input. */
  const PassportSeparator := "\n\n"

  /** Every field as read, untouched: byr, iyr, eyr, hgt, hcl, ecl, pid, cid. */
  datatype BasicPassport = BasicPassport(
    birthYear: Option<string>,
    issueYear: Option<string>,
    expirationYear: Option<string>,
    height: Option<string>,
    hairColour: Option<string>,
    eyeColour: Option<string>,
    passportId: Option<string>,
    countryId: Option<string>)

  const Blank := BasicPassport(None, None, None, None, None, None, None, None)

  const Keys: set<string> := {"byr", "iyr", "eyr", "hgt", "hcl", "ecl", "pid", "cid"}

  const SeparatorError := "Key-value pair has too many deliminators."
  const KeyError := "Unrecognized key in key-value pair."

  /** The field a key names. */
  function Field(p: BasicPassport, key: string): Option<string>
    requires key in Keys
  {
    match key
    case "byr" => p.birthYear
    case "iyr" => p.issueYear
    case "eyr" => p.expirationYear
    case "hgt" => p.height
    case "hcl" => p.hairColour
    case "ecl" => p.eyeColour
    case "pid" => p.passportId
    case _ => p.countryId
  }

  /** `p` with the field named `key` set to `value`. */
  function With(p: BasicPassport, key: string, value: string): (r: BasicPassport)
    requires key in Keys
    ensures Field(r, key) == Some(value)
    ensures forall k :: k in Keys && k != key ==> Field(r, k) == Field(p, k)
  {
    match key
    case "byr" => p.(birthYear := Some(value))
    case "iyr" => p.(issueYear := Some(value))
    case "eyr" => p.(expirationYear := Some(value))
    case "hgt" => p.(height := Some(value))
    case "hcl" => p.(hairColour := Some(value))
    case "ecl" => p.(eyeColour := Some(value))
    case "pid" => p.(passportId := Some(value))
    case _ => p.(countryId := Some(value))
  }

  /** A token split on `:`, when it has exactly two parts. */
  function SplitPair(pair: string): (r: Option<(string, string)>)
    ensures r.Some? <==> |SplitOn(pair, ":")| == 2
    ensures r.Some? ==> r.value.0 == SplitOn(pair, ":")[0] && r.value.1 == SplitOn(pair, ":")[1]
  {
    var parts := SplitOn(pair, ":");
    if |parts| == 2 then Some((parts[0], parts[1])) else None
  }

  /** A token is a pair exactly when it holds one `:`, and then the pair is
      the text on either side of it. */
  lemma SplitPairOneColon(pair: string)
    ensures SplitPair(pair).Some? <==> multiset(pair)[':'] == 1
    ensures SplitPair(pair).Some? ==>
              var (key, value) := SplitPair(pair).value;
              pair == key + ":" + value && ':' !in key && ':' !in value
  {
    var parts := SplitOn(pair, ":");
    MatchCountChar(pair, ':');
    if |parts| == 2 {
      ContainsChar(parts[0], ':');
      ContainsChar(parts[1], ':');
      assert Join(parts, ":") == parts[0] + ":" + Join(parts[1..], ":");
    }
  }

  /** A pair the reader accepts: exactly one `:`, and a known key before it. */
  predicate WellFormedPair(pair: string) {
    SplitPair(pair).Some? && SplitPair(pair).value.0 in Keys
  }

  /** The error the reader reports for a pair it rejects. */
  function PairError(pair: string): string {
    if SplitPair(pair).None? then SeparatorError else KeyError
  }

  /** `pair` is `key:` followed by a value. */
  predicate HasKey(pair: string, key: string) {
    SplitPair(pair).Some? && SplitPair(pair).value.0 == key
  }

  /** `pair` is `key:v`. */
  predicate PairIs(pair: string, key: string, v: string) {
    HasKey(pair, key) && SplitPair(pair).value.1 == v
  }

  /** The test for pairs naming `key`. */
  function NamesKey(key: string): string -> bool {
    pair => HasKey(pair, key)
  }

  /** The value of the last pair with key `key`: the one the reader keeps. */
  function LastValue(pairs: seq<string>, key: string): Option<string> {
    var i := LastWhere(pairs, NamesKey(key));
    if i < 0 then None else Some(SplitPair(pairs[i]).value.1)
  }

  /** There is no last value exactly when no pair has the key. */
  lemma LastValueNone(pairs: seq<string>, key: string)
    ensures LastValue(pairs, key).None? <==> forall i :: 0 <= i < |pairs| ==> !HasKey(pairs[i], key)
  {
    var i := LastWhere(pairs, NamesKey(key));
    if i >= 0 {
      assert NamesKey(key)(pairs[i]);
    }
  }

  /** The pair at `i` has the key and no later pair does. */
  predicate LastWithKey(pairs: seq<string>, key: string, i: int) {
    0 <= i < |pairs| && HasKey(pairs[i], key) && forall j :: i < j < |pairs| ==> !HasKey(pairs[j], key)
  }

  /** The last value is the value of a pair with the key after which no
      pair has the key. */
  lemma LastValueIsLast(pairs: seq<string>, key: string, v: string)
    ensures LastValue(pairs, key) == Some(v) <==>
              exists i :: LastWithKey(pairs, key, i) && PairIs(pairs[i], key, v)
  {
    var f := NamesKey(key);
    if LastValue(pairs, key) == Some(v) {
      var i := LastWhere(pairs, f);
      assert f(pairs[i]);
      assert LastWithKey(pairs, key, i) && PairIs(pairs[i], key, v);
    }
    if exists i :: LastWithKey(pairs, key, i) && PairIs(pairs[i], key, v) {
      var i :| LastWithKey(pairs, key, i) && PairIs(pairs[i], key, v);
      LastWhereUnique(pairs, f, i);
    }
  }

  /** `LastValue` read from the front: a later pair overrides the first. */
  lemma LastValueCons(pairs: seq<string>, key: string)
    requires |pairs| > 0
    ensures LastValue(pairs, key) ==
              (if LastValue(pairs[1..], key).Some? then LastValue(pairs[1..], key)
               else if HasKey(pairs[0], key) then Some(SplitPair(pairs[0]).value.1)
               else None)
  {
    LastWhereCons(pairs, NamesKey(key));
    var t := LastWhere(pairs[1..], NamesKey(key));
    if t >= 0 {
      assert pairs[t + 1] == pairs[1..][t];
    }
  }

  /** The reading loop over the whitespace-separated pairs, starting from
      `p`: stops at the first rejected pair, otherwise overwrites the named
      field with each value in turn. */
  function AddPairs(p: BasicPassport, pairs: seq<string>): (r: Result<BasicPassport>)
    ensures r.Ok? <==> forall i :: 0 <= i < |pairs| ==> WellFormedPair(pairs[i])
    decreases |pairs|
  {
    if |pairs| == 0 then Ok(p)
    else
      match SplitPair(pairs[0])
      case None => Err(SeparatorError)
      case Some((k, v)) =>
        if k !in Keys then Err(KeyError)
        else
          var rest := pairs[1..];
          assert forall i {:trigger pairs[i]} :: 1 <= i < |pairs| ==> pairs[i] == rest[i - 1];
          AddPairs(With(p, k, v), rest)
  }

  /** After a successful read each field holds the value of the last pair
      naming it, or what it held before when no pair names it. */
  lemma {:induction false} AddPairsFields(p: BasicPassport, pairs: seq<string>, key: string)
    requires AddPairs(p, pairs).Ok? && key in Keys
    ensures Field(AddPairs(p, pairs).value, key) ==
              (if LastValue(pairs, key).Some? then LastValue(pairs, key) else Field(p, key))
    decreases |pairs|
  {
    if |pairs| > 0 {
      var (k, v) := SplitPair(pairs[0]).value;
      var rest := pairs[1..];
      assert AddPairs(p, pairs) == AddPairs(With(p, k, v), rest);
      AddPairsFields(With(p, k, v), rest, key);
      LastValueCons(pairs, key);
    }
  }

  /** One step of the reading loop. */
  lemma AddPairsStep(p: BasicPassport, pairs: seq<string>)
    requires |pairs| > 0
    ensures !WellFormedPair(pairs[0]) ==> AddPairs(p, pairs) == Err(PairError(pairs[0]))
    ensures WellFormedPair(pairs[0]) ==>
              AddPairs(p, pairs) == AddPairs(With(p, SplitPair(pairs[0]).value.0, SplitPair(pairs[0]).value.1), pairs[1..])
  {
  }

  /** The pair at `i` is the first one the reader rejects. */
  predicate FirstRejected(pairs: seq<string>, i: int) {
    0 <= i < |pairs| && !WellFormedPair(pairs[i]) && forall j :: 0 <= j < i ==> WellFormedPair(pairs[j])
  }

  /** A failed read reports the error of the first rejected pair. */
  lemma {:induction false} AddPairsFails(p: BasicPassport, pairs: seq<string>)
    requires AddPairs(p, pairs).Err?
    ensures exists i :: FirstRejected(pairs, i) && AddPairs(p, pairs).error == PairError(pairs[i])
    decreases |pairs|
  {
    AddPairsStep(p, pairs);
    if WellFormedPair(pairs[0]) {
      var q := With(p, SplitPair(pairs[0]).value.0, SplitPair(pairs[0]).value.1);
      var rest := pairs[1..];
      AddPairsFails(q, rest);
      var i :| FirstRejected(rest, i) && AddPairs(q, rest).error == PairError(rest[i]);
      FirstRejectedCons(pairs, i);
      assert FirstRejected(pairs, i + 1) && AddPairs(p, pairs).error == PairError(pairs[i + 1]);
    } else {
      assert FirstRejected(pairs, 0);
    }
  }

  /** A first rejection in the tail is a first rejection one further on
      when the head is accepted. */
  lemma FirstRejectedCons(pairs: seq<string>, i: int)
    requires |pairs| > 0 && WellFormedPair(pairs[0]) && FirstRejected(pairs[1..], i)
    ensures FirstRejected(pairs, i + 1) && pairs[i + 1] == pairs[1..][i]
  {
    assert forall j :: 1 <= j < i + 1 ==> pairs[j] == pairs[1..][j - 1];
  }

  /** `BasicPassport::new`: every whitespace-separated token must be a
      well-formed pair; each field holds the value of the last pair naming
      it. */
  function NewBasic(text: string): (r: Result<BasicPassport>)
    ensures r.Ok? <==> forall i :: 0 <= i < |SplitWhitespace(text)| ==> WellFormedPair(SplitWhitespace(text)[i])
    ensures r.Ok? ==> forall key :: key in Keys ==> Field(r.value, key) == LastValue(SplitWhitespace(text), key)
    ensures r.Err? ==> exists i :: FirstRejected(SplitWhitespace(text), i) && r.error == PairError(SplitWhitespace(text)[i])
  {
    var pairs := SplitWhitespace(text);
    var r := AddPairs(Blank, pairs);
    if r.Ok? then
      forall key | key in Keys
        ensures Field(r.value, key) == LastValue(pairs, key)
      {
        AddPairsFields(Blank, pairs, key);
      }
      r
    else
      AddPairsFails(Blank, pairs);
      r
  }

  /** Every field but `cid` is present. */
  predicate HasRequiredFields(p: BasicPassport) {
    && p.birthYear.Some? && p.issueYear.Some? && p.expirationYear.Some?
    && p.height.Some? && p.hairColour.Some? && p.eyeColour.Some? && p.passportId.Some?
  }

  /** The required fields are those named by every key but `cid`. */
  lemma RequiredFieldsByKey(p: BasicPassport)
    ensures HasRequiredFields(p) <==> forall key :: key in Keys && key != "cid" ==> Field(p, key).Some?
  {
    if !HasRequiredFields(p) {
      if p.birthYear.None? { assert Field(p, "byr").None?; }
      else if p.issueYear.None? { assert Field(p, "iyr").None?; }
      else if p.expirationYear.None? { assert Field(p, "eyr").None?; }
      else if p.height.None? { assert Field(p, "hgt").None?; }
      else if p.hairColour.None? { assert Field(p, "hcl").None?; }
      else if p.eyeColour.None? { assert Field(p, "ecl").None?; }
      else { assert Field(p, "pid").None?; }
    }
  }

  /** A read passport has the required fields iff each required key appears
      in some pair of the text. */
  lemma RequiredFieldsIffKeysPresent(text: string)
    requires NewBasic(text).Ok?
    ensures HasRequiredFields(NewBasic(text).value) <==>
              forall key :: key in Keys && key != "cid" ==> LastValue(SplitWhitespace(text), key).Some?
  {
    RequiredFieldsByKey(NewBasic(text).value);
  }

  // ---------------------------------------------------------------------------
  // The strict passport
  // ---------------------------------------------------------------------------

  datatype MeasurementUnit = Centimeters | Inches

  datatype Measurement = Measurement(length: nat, unit: MeasurementUnit)

  datatype StrictPassport = StrictPassport(
    birthYear: Option<nat>,
    issueYear: Option<nat>,
    expirationYear: Option<nat>,
    height: Option<Measurement>,
    hairColour: Option<string>,
    eyeColour: Option<string>,
    passportId: Option<string>,
    countryId: Option<string>)

  /** A year that parses as an unsigned integer within `lo..=hi`. */
  predicate YearWithin(text: string, lo: nat, hi: nat) {
    ParseUnsigned(text).Some? && lo <= ParseUnsigned(text).value <= hi
  }

  /** A year field survives when it parses and lies in `lo..=hi`. */
  function CheckYear(field: Option<string>, lo: nat, hi: nat): (r: Option<nat>)
    ensures r.Some? <==> field.Some? && YearWithin(field.value, lo, hi)
    ensures r.Some? ==> ParseUnsigned(field.value) == Some(r.value)
  {
    match field
    case None => None
    case Some(text) =>
      match ParseUnsigned(text)
      case Some(year) => if lo <= year <= hi then Some(year) else None
      case None => None
  }

  /** A year written in decimal survives exactly when it lies in `lo..=hi`,
      and then it is that year. */
  lemma CheckYearShow(year: nat, lo: nat, hi: nat)
    ensures CheckYear(Some(NatToString(year)), lo, hi) == if lo <= year <= hi then Some(year) else None
  {
    ParseUnsignedRoundTrip(year);
  }

  /** The allowed lengths of each unit. */
  predicate HeightInRange(length: nat, unit: MeasurementUnit) {
    match unit
    case Centimeters => 150 <= length <= 193
    case Inches => 59 <= length <= 76
  }

  /** The last two characters as a unit: `cm` or `in`. */
  function UnitOf(text: string): Option<MeasurementUnit> {
    if |text| < 2 then None
    else if text[|text| - 2..] == "cm" then Some(Centimeters)
    else if text[|text| - 2..] == "in" then Some(Inches)
    else None
  }

  /** A height: a number and a unit, within the unit's bounds. */
  function CheckHeight(text: string): (r: Option<Measurement>)
    ensures r.Some? ==> (|text| >= 2 && UnitOf(text) == Some(r.value.unit)
                       && ParseUnsigned(text[..|text| - 2]) == Some(r.value.length)
                       && HeightInRange(r.value.length, r.value.unit))
    ensures (UnitOf(text).Some? && ParseUnsigned(text[..|text| - 2]).Some?
             && HeightInRange(ParseUnsigned(text[..|text| - 2]).value, UnitOf(text).value)) ==> r.Some?
  {
    match UnitOf(text)
    case None => None
    case Some(unit) =>
      match ParseUnsigned(text[..|text| - 2])
      case Some(length) => if HeightInRange(length, unit) then Some(Measurement(length, unit)) else None
      case None => None
  }

  function UnitName(unit: MeasurementUnit): string {
    match unit
    case Centimeters => "cm"
    case Inches => "in"
  }

  /** A measurement written back out, as `<length><unit>`. */
  function ShowHeight(m: Measurement): string {
    NatToString(m.length) + UnitName(m.unit)
  }

  /** A measurement within its bounds is read back from its rendering, and
      one outside them is not. */
  lemma CheckHeightShow(m: Measurement)
    ensures CheckHeight(ShowHeight(m)) == (if HeightInRange(m.length, m.unit) then Some(m) else None)
  {
    var s := ShowHeight(m);
    assert s[..|s| - 2] == NatToString(m.length);
    assert s[|s| - 2..] == UnitName(m.unit);
    ParseUnsignedRoundTrip(m.length);
  }

  predicate IsHexDigit(c: char) {
    ('0' <= c <= '9') || ('a' <= c <= 'f') || ('A' <= c <= 'F')
  }

  /** `#` followed by six hexadecimal digits of either case. */
  predicate IsHairColour(text: string) {
    |text| == 7 && text[0] == '#' && forall i :: 1 <= i < 7 ==> IsHexDigit(text[i])
  }

  /** The hair-colour check as written: a validity flag cleared by a wrong
      length, a missing `#`, or any non-hexadecimal character after it. */
  method CheckHairColour(text: string) returns (valid: bool)
    ensures valid <==> IsHairColour(text)
  {
    valid := true;
    if |text| == 7 {
      if text[0] == '#' {
        var key := 1;
        while key < |text|
          invariant 1 <= key <= |text|
          invariant valid <==> forall i :: 1 <= i < key ==> IsHexDigit(text[i])
        {
          if !IsHexDigit(text[key]) {
            valid := false;
          }
          key := key + 1;
        }
      } else {
        valid := false;
      }
    } else {
      valid := false;
    }
  }

  const EyeColours: set<string> := {"amb", "blu", "brn", "gry", "grn", "hzl", "oth"}

  /** Nine characters that parse as an unsigned integer. */
  predicate IsPassportId(text: string) {
    |text| == 9 && ParseUnsigned(text).Some?
  }

  /** A passport id may carry a leading `+`, which the integer parser
      accepts. */
  lemma PassportIdAcceptsPlus()
    ensures IsPassportId("+12345678")
  {
    assert "+12345678"[1..] == "12345678";
    assert AllDigits("12345678");
  }

  /** A kept field is the same `Option` with `None` for a rejected value. */
  function Keep(field: Option<string>, ok: string -> bool): (r: Option<string>)
    ensures r.Some? <==> field.Some? && ok(field.value)
    ensures r.Some? ==> r == field
  {
    if field.Some? && ok(field.value) then field else None
  }

  /** `StrictPassport::from`: each field kept only if its value passes its
      rule; `cid` passed through. */
  function Strict(b: BasicPassport): (r: StrictPassport)
    ensures r.birthYear.Some? <==> b.birthYear.Some? && YearWithin(b.birthYear.value, 1920, 2002)
    ensures r.issueYear.Some? <==> b.issueYear.Some? && YearWithin(b.issueYear.value, 2010, 2020)
    ensures r.expirationYear.Some? <==> b.expirationYear.Some? && YearWithin(b.expirationYear.value, 2020, 2030)
    ensures r.birthYear.Some? ==> ParseUnsigned(b.birthYear.value) == r.birthYear
    ensures r.issueYear.Some? ==> ParseUnsigned(b.issueYear.value) == r.issueYear
    ensures r.expirationYear.Some? ==> ParseUnsigned(b.expirationYear.value) == r.expirationYear
    ensures r.height.Some? <==> b.height.Some? && CheckHeight(b.height.value).Some?
    ensures r.height.Some? ==> r.height == CheckHeight(b.height.value)
    ensures r.hairColour.Some? <==> b.hairColour.Some? && IsHairColour(b.hairColour.value)
    ensures r.eyeColour.Some? <==> b.eyeColour.Some? && b.eyeColour.value in EyeColours
    ensures r.passportId.Some? <==> b.passportId.Some? && IsPassportId(b.passportId.value)
    ensures r.hairColour.Some? ==> r.hairColour == b.hairColour
    ensures r.eyeColour.Some? ==> r.eyeColour == b.eyeColour
    ensures r.passportId.Some? ==> r.passportId == b.passportId
    ensures r.countryId == b.countryId
  {
    StrictPassport(
      CheckYear(b.birthYear, 1920, 2002),
      CheckYear(b.issueYear, 2010, 2020),
      CheckYear(b.expirationYear, 2020, 2030),
      if b.height.Some? then CheckHeight(b.height.value) else None,
      Keep(b.hairColour, IsHairColour),
      Keep(b.eyeColour, (c: string) => c in EyeColours),
      Keep(b.passportId, IsPassportId),
      b.countryId)
  }

  /** Every field but `cid` survived. */
  predicate IsValid(p: StrictPassport) {
    && p.birthYear.Some? && p.issueYear.Some? && p.expirationYear.Some?
    && p.height.Some? && p.hairColour.Some? && p.eyeColour.Some? && p.passportId.Some?
  }

  /** Conversion never invents a field, so a valid strict passport came from
      one with all required fields. */
  lemma ValidImpliesRequired(b: BasicPassport)
    ensures IsValid(Strict(b)) ==> HasRequiredFields(b)
  {
  }

  /** A strict passport is valid iff every required field of the loose one
      passes its rule. */
  lemma ValidIffFieldsPass(b: BasicPassport)
    ensures IsValid(Strict(b)) <==>
              && HasRequiredFields(b)
              && CheckYear(b.birthYear, 1920, 2002).Some?
              && CheckYear(b.issueYear, 2010, 2020).Some?
              && CheckYear(b.expirationYear, 2020, 2030).Some?
              && CheckHeight(b.height.value).Some?
              && IsHairColour(b.hairColour.value)
              && b.eyeColour.value in EyeColours
              && IsPassportId(b.passportId.value)
  {
  }
}
