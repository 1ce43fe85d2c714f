/** Object-literal lookups as JavaScript performs them: an own property,
    a member inherited from `Object.prototype`, or `undefined`, and the
    `||` fallback the test-data helpers apply to the value read. */
module JsObjects {
  import opened Results
  import opened JsStrings

  /** The value of a property read on a string-valued object literal. */
  datatype JsValue = Str(s: string) | Inherited(name: string) | Undefined

  /** The properties every object literal inherits from `Object.prototype`. */
  const PrototypeMembers: set<string> := {
    "constructor", "__defineGetter__", "__defineSetter__", "hasOwnProperty",
    "__lookupGetter__", "__lookupSetter__", "isPrototypeOf",
    "propertyIsEnumerable", "toString", "valueOf", "__proto__", "toLocaleString"
  }

  /** `obj[key]`, given the object's own value for `key` if it has one. */
  function PropertyRead(own: Option<string>, key: string): (v: JsValue)
    ensures v.Str? <==> own.Some?
    ensures v.Str? ==> v.s == own.value
    ensures v.Inherited? <==> own.None? && key in PrototypeMembers
  {
    match own
    case Some(s) => Str(s)
    case None => if key in PrototypeMembers then Inherited(key) else Undefined
  }

  /** The own value of `key` in an object literal with the entries `table`. */
  function OwnValue(table: map<string, string>, key: string): (own: Option<string>)
    ensures own.Some? <==> key in table
    ensures own.Some? ==> own.value == table[key]
  {
    if key in table then Some(table[key]) else None
  }

  /** Only the empty string and `undefined` are falsy among these values;
      an inherited function or object is truthy. */
  predicate Truthy(v: JsValue) {
    match v
    case Str(s) => s != ""
    case Inherited(_) => true
    case Undefined => false
  }

  /** `v || fallback`. */
  function OrElse(v: JsValue, fallback: string): (r: JsValue)
    ensures Truthy(v) ==> r == v
    ensures !Truthy(v) ==> r == Str(fallback)
  {
    if Truthy(v) then v else Str(fallback)
  }

  /** The intended reading of `obj[key] || fallback`: the own non-empty
      value, or the fallback. */
  function OwnOrElse(own: Option<string>, fallback: string): (r: string)
    ensures own.Some? && own.value != "" ==> r == own.value
    ensures !(own.Some? && own.value != "") ==> r == fallback
  {
    if own.Some? && own.value != "" then own.value else fallback
  }

  /** When no prototype member is an own key, `obj[key] || fallback` as
      written yields the intended string exactly when `key` is not a
      prototype member; for a prototype member it yields the inherited
      member itself, which is not a string. */
  lemma OrElseAgreement(own: Option<string>, key: string, fallback: string)
    requires own.Some? ==> key !in PrototypeMembers
    ensures OrElse(PropertyRead(own, key), fallback) == Str(OwnOrElse(own, fallback))
            <==> key !in PrototypeMembers
    ensures key in PrototypeMembers ==> OrElse(PropertyRead(own, key), fallback) == Inherited(key)
  {
  }

  /** Every prototype member name starts with a character that is not an
      upper-case letter and holds a lower-case ASCII letter. */
  lemma PrototypeMemberShape(m: string)
    requires m in PrototypeMembers
    ensures |m| >= 3 && !IsUpperAscii(m[0]) && IsLowerAscii(m[|m| - 3])
  {
  }
}

/** The test-data normalisers: state names, the MSB wording tables, card
    expiry dates, US date normalisation and the step screenshot names. */
module TestData {
  import opened Results
  import opened JsStrings
  import opened ReportDoc
  import opened Capture
  import opened JsObjects

  // ---------------------------------------------------------------------
  // States

  /** `stateAbbreviationMap`, keyed by the two letters of the
      abbreviation. */
  function StateOf(c1: char, c2: char): Option<string> {
    match c1
    case 'A' => (match c2 case 'L' => Some("Alabama") case 'K' => Some("Alaska")
                          case 'Z' => Some("Arizona") case 'R' => Some("Arkansas") case _ => None)
    case 'C' => (match c2 case 'A' => Some("California") case 'O' => Some("Colorado")
                          case 'T' => Some("Connecticut") case _ => None)
    case 'D' => (match c2 case 'E' => Some("Delaware") case _ => None)
    case 'F' => (match c2 case 'L' => Some("Florida") case _ => None)
    case 'G' => (match c2 case 'A' => Some("Georgia") case _ => None)
    case 'H' => (match c2 case 'I' => Some("Hawaii") case _ => None)
    case 'I' => (match c2 case 'D' => Some("Idaho") case 'L' => Some("Illinois")
                          case 'N' => Some("Indiana") case 'A' => Some("Iowa") case _ => None)
    case 'K' => (match c2 case 'S' => Some("Kansas") case 'Y' => Some("Kentucky") case _ => None)
    case 'L' => (match c2 case 'A' => Some("Louisiana") case _ => None)
    case 'M' => (match c2 case 'E' => Some("Maine") case 'D' => Some("Maryland")
                          case 'A' => Some("Massachusetts") case 'I' => Some("Michigan")
                          case 'N' => Some("Minnesota") case 'S' => Some("Mississippi")
                          case 'O' => Some("Missouri") case 'T' => Some("Montana") case _ => None)
    case 'N' => (match c2 case 'E' => Some("Nebraska") case 'V' => Some("Nevada")
                          case 'H' => Some("New Hampshire") case 'J' => Some("New Jersey")
                          case 'M' => Some("New Mexico") case 'Y' => Some("New York")
                          case 'C' => Some("North Carolina") case 'D' => Some("North Dakota") case _ => None)
    case 'O' => (match c2 case 'H' => Some("Ohio") case 'K' => Some("Oklahoma")
                          case 'R' => Some("Oregon") case _ => None)
    case 'P' => (match c2 case 'A' => Some("Pennsylvania") case _ => None)
    case 'R' => (match c2 case 'I' => Some("Rhode Island") case _ => None)
    case 'S' => (match c2 case 'C' => Some("South Carolina") case 'D' => Some("South Dakota") case _ => None)
    case 'T' => (match c2 case 'N' => Some("Tennessee") case 'X' => Some("Texas") case _ => None)
    case 'U' => (match c2 case 'T' => Some("Utah") case _ => None)
    case 'V' => (match c2 case 'T' => Some("Vermont") case 'A' => Some("Virginia") case _ => None)
    case 'W' => (match c2 case 'A' => Some("Washington") case 'V' => Some("West Virginia")
                          case 'I' => Some("Wisconsin") case 'Y' => Some("Wyoming") case _ => None)
    case _ => None
  }

  /** The table's own value for a key: only two upper-case letters can be
      a key, and every state has a non-empty name. */
  function StateFor(key: string): (own: Option<string>)
    ensures own.Some? ==> |key| == 2 && IsUpperAscii(key[0]) && IsUpperAscii(key[1]) && own.value != ""
  {
    if |key| == 2 then StateOf(key[0], key[1]) else None
  }

  /** `getFullStateName`: the state's name for a listed abbreviation in
      any letter case, the argument itself (not upper-cased) otherwise. */
  function GetFullStateName(abbreviation: string): (r: string)
    ensures StateFor(UpperCase(abbreviation)).Some? ==> r == StateFor(UpperCase(abbreviation)).value
    ensures StateFor(UpperCase(abbreviation)).None? ==> r == abbreviation
  {
    OwnOrElse(StateFor(UpperCase(abbreviation)), abbreviation)
  }

  /** An upper-cased key never names an inherited member, so the lookup as
      the source writes it always yields the own-property result. */
  lemma StateLookupNeverReachesPrototype(abbreviation: string)
    ensures UpperCase(abbreviation) !in PrototypeMembers
    ensures OrElse(PropertyRead(StateFor(UpperCase(abbreviation)), UpperCase(abbreviation)), abbreviation)
            == Str(GetFullStateName(abbreviation))
  {
    var key := UpperCase(abbreviation);
    if key in PrototypeMembers {
      PrototypeMemberShape(key);
      assert false;
    }
  }

  /** Abbreviations differing only in ASCII letter case name the same
      state. */
  lemma GetFullStateNameIgnoresCase(a: string, b: string)
    requires |a| == |b|
    requires forall i :: 0 <= i < |a| ==> LowerAscii(a[i]) == LowerAscii(b[i])
    ensures StateFor(UpperCase(a)).Some? ==> GetFullStateName(a) == GetFullStateName(b)
  {
    UpperCaseIgnoresAsciiCase(a, b);
  }

  /** "ny" and "NY" both give "New York"; a state's full name is passed
      through unchanged, not upper-cased. */
  lemma GetFullStateNameExamples(lower: string, upper: string, name: string)
    requires lower == "ny" && upper == "NY" && name == "Texas"
    ensures GetFullStateName(lower) == "New York"
    ensures GetFullStateName(upper) == "New York"
    ensures GetFullStateName(name) == name
  {
    UpperCaseOfPair(lower);
    UpperCaseOfPair(upper);
    assert |UpperCase(name)| >= 5;
  }

  /** A two-character string upper-cases character by character. */
  lemma UpperCaseOfPair(s: string)
    requires |s| == 2
    ensures UpperCase(s) == UpperChar(s[0]) + UpperChar(s[1])
  {
    assert s[1..][1..] == "";
  }

  // ---------------------------------------------------------------------
  // MSB wording tables

  const RoofCovering: map<string, string> := map[
    "Composition Shingle" := "Shingles, Asphalt/Fiberglass",
    "Wood or Shake Shingle" := "Shakes, Wood",
    "Aluminum" := "Aluminum, Corrugated",
    "Tin" := "Tin",
    "Heavy Gauge Steel" := "Steel",
    "Tile" := "Tile, Clay",
    "Copper" := "Copper",
    "Architectural Shingle" := "Shingles, Architectural"
  ]

  const RoofStyle: map<string, string> := map[
    "Flat" := "Flat",
    "Slight Pitch" := "Gable, Slight Pitch",
    "Moderate Pitch" := "Gable, Moderate Pitch",
    "Steep Pitch" := "Gable, Steep Pitch"
  ]

  const ConstructionType: map<string, string> := map[
    "Brick/Masonry" := "Brick on Masonry",
    "Concrete" := "Concrete Block, Painted",
    "Brick Veneer" := "Brick, Solid",
    "Frame" := "Brick on Frame",
    "Stucco" := "Stucco on Frame",
    "Log" := "Logs, Solid"
  ]

  const HeatingMethod: map<string, string> := map[
    "Electric" := "Heating, Electric",
    "Natural Gas" := "Heating, Gas",
    "Propane" := "Heating, Propane Gas Forced Air",
    "Heat Pump" := "Heat Pump",
    "Radiant Ceiling or Floor" := "Heating System, Radiant Floor",
    "Oil" := "Heating, Oil",
    "Other" := "Heating, Electric"
  ]

  const FoundationType: map<string, string> := map[
    "Basement - Below Grade" := "Basement, Below Grade",
    "Basement - Walk Out" := "Basement, Walkout",
    "Crawl Space" := "Crawl Space, Unexcavated - Moderate Soil",
    "Slab" := "Slab at Grade - Moderate Soil",
    "Open" := "Basement, Below Grade",
    "Hillside" := "Hillside",
    "Pier and Post/Stilts" := "Piers"
  ]

  /** The five MSB tables, one per lookup helper. */
  datatype MsbTable = RoofCoveringTable | RoofStyleTable | ConstructionTypeTable
                    | HeatingMethodTable | FoundationTypeTable

  function TableOf(t: MsbTable): map<string, string> {
    match t
    case RoofCoveringTable => RoofCovering
    case RoofStyleTable => RoofStyle
    case ConstructionTypeTable => ConstructionType
    case HeatingMethodTable => HeatingMethod
    case FoundationTypeTable => FoundationType
  }

  /** Every key starts with an upper-case letter and no wording is empty,
      so `||` never falls back on a listed key. */
  lemma MsbTableShape(t: MsbTable, key: string)
    requires key in TableOf(t)
    ensures |key| > 0 && IsUpperAscii(key[0]) && TableOf(t)[key] != ""
  {
  }

  /** Hence no table lists a prototype member name. */
  lemma MsbKeyNotPrototype(t: MsbTable, key: string)
    requires key in TableOf(t)
    ensures key !in PrototypeMembers
  {
    MsbTableShape(t, key);
    if key in PrototypeMembers {
      PrototypeMemberShape(key);
      assert false;
    }
  }

  /** `getRoofCoveringMSB` … `getFoundationType_MSB` as the source writes
      them: `table[key] || key` on an object literal. */
  function MsbAsWritten(t: MsbTable, key: string): (r: JsValue)
    ensures key in TableOf(t) ==> r == Str(TableOf(t)[key])
    ensures key !in TableOf(t) && key in PrototypeMembers ==> r == Inherited(key)
    ensures key !in TableOf(t) && key !in PrototypeMembers ==> r == Str(key)
  {
    if key in TableOf(t) then
      MsbTableShape(t, key);
      OrElse(PropertyRead(OwnValue(TableOf(t), key), key), key)
    else
      OrElse(PropertyRead(OwnValue(TableOf(t), key), key), key)
  }

  /** The same lookups with an own-property read: the mapped wording for a
      listed key, the key itself for any other. */
  function MsbLookup(t: MsbTable, key: string): (r: string)
    ensures key in TableOf(t) ==> r == TableOf(t)[key] && r != ""
    ensures key !in TableOf(t) ==> r == key
  {
    if key in TableOf(t) then
      MsbTableShape(t, key);
      TableOf(t)[key]
    else key
  }

  /** The lookups as written agree with the intended ones on every key but
      the names of `Object.prototype` members. */
  lemma MsbAsWrittenAgreement(t: MsbTable, key: string)
    ensures MsbAsWritten(t, key) == Str(MsbLookup(t, key)) <==> key !in PrototypeMembers
  {
    if key in TableOf(t) {
      MsbKeyNotPrototype(t, key);
    }
    OrElseAgreement(OwnValue(TableOf(t), key), key, key);
  }

  /** "toString" is not a roof covering, yet the lookup as written returns
      the inherited `toString` function instead of the string. */
  lemma MsbAsWrittenCounterexample()
    ensures "toString" !in TableOf(RoofCoveringTable)
    ensures MsbAsWritten(RoofCoveringTable, "toString") == Inherited("toString")
    ensures MsbLookup(RoofCoveringTable, "toString") == "toString"
  {
  }

  lemma MsbLookupExamples()
    ensures MsbLookup(RoofCoveringTable, "Tile") == "Tile, Clay"
    ensures MsbLookup(HeatingMethodTable, "Other") == "Heating, Electric"
    ensures MsbLookup(FoundationTypeTable, "Pier and Post/Stilts") == "Piers"
  {
  }

  // ---------------------------------------------------------------------
  // convertExpiryDate

  /** `parseInt(s, 10)`: NaN, or an integer. */
  datatype ParsedInt = NaNInt | IntVal(v: int)

  /** The longest prefix of ASCII digits. */
  function DigitPrefix(s: string): (d: string)
    ensures AllDigits(d) && |d| <= |s| && d == s[..|d|]
    ensures |d| < |s| ==> !IsDigit(s[|d|])
    decreases |s|
  {
    if |s| == 0 || !IsDigit(s[0]) then ""
    else
      var rest := DigitPrefix(s[1..]);
      assert s[..1 + |rest|] == [s[0]] + s[1..][..|rest|];
      [s[0]] + rest
  }

  /** The string after one leading sign character, if there is one. */
  function SignStripped(t: string): string {
    if |t| > 0 && (t[0] == '-' || t[0] == '+') then t[1..] else t
  }

  /** `parseInt(s, 10)`: leading white space is skipped, one sign is
      allowed, then the longest run of digits is read; no digit is NaN. */
  function ParseIntDecimal(s: string): (r: ParsedInt)
    ensures r.IntVal? <==> |DigitPrefix(SignStripped(TrimStart(s)))| > 0
    ensures r.IntVal? && r.v < 0 ==> TrimStart(s)[0] == '-'
  {
    var t := TrimStart(s);
    var d := DigitPrefix(SignStripped(t));
    if |d| == 0 then NaNInt
    else if |t| > 0 && t[0] == '-' then IntVal(0 - DigitsValue(d))
    else IntVal(DigitsValue(d))
  }

  lemma {:induction false} DigitPrefixOfDigits(s: string)
    requires AllDigits(s)
    ensures DigitPrefix(s) == s
    decreases |s|
  {
    if |s| > 0 {
      DigitPrefixOfDigits(s[1..]);
    }
  }

  /** A string of digits parses to its value. */
  lemma ParseIntOfDigits(s: string)
    requires |s| > 0 && AllDigits(s)
    ensures ParseIntDecimal(s) == IntVal(DigitsValue(s))
  {
    assert !IsSpace(s[0]);
    assert TrimStart(s) == s;
    assert SignStripped(s) == s;
    DigitPrefixOfDigits(s);
  }

  const MonthNames: seq<string> := [
    "", "January", "February", "March", "April", "May", "June", "July",
    "August", "September", "October", "November", "December"
  ]

  /** The month (`undefined` when the index misses the table) and year
      `convertExpiryDate` returns. */
  datatype Expiry = Expiry(month: Option<string>, year: string)

  /** `monthNames[parseInt(mm, 10)]`: defined for the indexes 0..12. */
  function MonthOf(mm: string): (m: Option<string>)
    ensures m.Some? <==> ParseIntDecimal(mm).IntVal? && 0 <= ParseIntDecimal(mm).v <= 12
    ensures m.Some? ==> m.value == MonthNames[ParseIntDecimal(mm).v]
  {
    match ParseIntDecimal(mm)
    case NaNInt => None
    case IntVal(v) => if 0 <= v <= 12 then Some(MonthNames[v]) else None
  }

  lemma {:induction false} CountPositive(s: string, c: char)
    requires c in s
    ensures Count(s, c) > 0
    decreases |s|
  {
    if s[0] != c {
      CountPositive(s[1..], c);
    }
  }

  /** `convertExpiryDate`: split on `/`, the month from the first piece,
      the year "20" followed by the second piece (printed as "undefined"
      when there is none). */
  function ConvertExpiryDate(expiry: string): (r: Expiry)
    ensures r.month == MonthOf(Split(expiry, '/')[0])
    ensures '/' in expiry ==> |Split(expiry, '/')| >= 2 && r.year == "20" + Split(expiry, '/')[1]
    ensures '/' !in expiry ==> r.year == "20undefined"
  {
    var parts := Split(expiry, '/');
    if '/' in expiry then
      SplitCount(expiry, '/');
      CountPositive(expiry, '/');
      Expiry(MonthOf(parts[0]), "20" + parts[1])
    else
      Expiry(MonthOf(parts[0]), "20undefined")
  }

  /** "MM/YY" with two digits MM in 01..12 gives the month's English name
      and the year "20YY"; "00" gives the empty name at index 0, and any
      other two digits give no month. */
  lemma ConvertExpiryDateOfCardDate(mm: string, yy: string)
    requires |mm| == 2 && AllDigits(mm) && '/' !in yy
    ensures 1 <= DigitsValue(mm) <= 12 ==>
      ConvertExpiryDate(mm + "/" + yy) == Expiry(Some(MonthNames[DigitsValue(mm)]), "20" + yy)
    ensures ConvertExpiryDate(mm + "/" + yy).year == "20" + yy
    ensures ConvertExpiryDate(mm + "/" + yy).month ==
      (if DigitsValue(mm) <= 12 then Some(MonthNames[DigitsValue(mm)]) else None)
  {
    var e := mm + "/" + yy;
    CardDateSplit(mm, yy);
    assert '/' in e by {
      assert e[2] == '/';
    }
    MonthOfDigits(mm);
  }

  /** The month of an all-digit string is the table entry at its value,
      when that value is at most 12. */
  lemma MonthOfDigits(mm: string)
    requires |mm| > 0 && AllDigits(mm)
    ensures MonthOf(mm) == if DigitsValue(mm) <= 12 then Some(MonthNames[DigitsValue(mm)]) else None
  {
    ParseIntOfDigits(mm);
  }

  /** A two-digit month, a slash and a slash-free year split into the two. */
  lemma CardDateSplit(mm: string, yy: string)
    requires |mm| == 2 && AllDigits(mm) && '/' !in yy
    ensures Split(mm + "/" + yy, '/') == [mm, yy]
  {
    assert '/' !in mm by {
      assert !IsDigit('/');
    }
    assert mm + "/" + yy == mm + ['/'] + yy;
    SplitAfterPiece(mm, '/', yy);
  }

  lemma TwoDigitValue(mm: string)
    requires mm == "08"
    ensures AllDigits(mm) && DigitsValue(mm) == 8
  {
    var p := mm[..1];
    assert p == "0" && p[..0] == "";
    assert DigitsValue(p) == 0;
    assert DigitValue(mm[1]) == 8;
  }

  lemma ConvertExpiryDateExample(mm: string, yy: string)
    requires mm == "08" && yy == "27"
    ensures ConvertExpiryDate(mm + "/" + yy) == Expiry(Some("August"), "20" + yy)
  {
    TwoDigitValue(mm);
    ConvertExpiryDateOfCardDate(mm, yy);
  }

  /** Without a `/` the year reads "20undefined". */
  lemma ConvertExpiryDateWithoutSlash()
    ensures ConvertExpiryDate("0827").year == "20undefined"
  {
  }

  // ---------------------------------------------------------------------
  // formatToMMDDYYYY

  /** The three digit groups `^\d{1,2}\/\d{1,2}\/(\d{2}|\d{4})$` asks for. */
  predicate DateGroups(m: string, d: string, y: string) {
    && 1 <= |m| <= 2 && AllDigits(m)
    && 1 <= |d| <= 2 && AllDigits(d)
    && (|y| == 2 || |y| == 4) && AllDigits(y)
  }

  /** The pattern, as an existence of the three groups around two `/`. */
  ghost predicate MatchesDatePattern(t: string) {
    exists m: string, d: string, y: string :: t == m + "/" + d + "/" + y && DateGroups(m, d, y)
  }

  /** The pattern test as the split pieces see it. */
  predicate IsDateShape(t: string) {
    var parts := Split(t, '/');
    |parts| == 3 && DateGroups(parts[0], parts[1], parts[2])
  }

  lemma JoinThree(m: string, d: string, y: string)
    ensures Join([m, d, y], '/') == m + "/" + d + "/" + y
  {
    assert [m, d, y][1..] == [d, y];
    assert [d, y][1..] == [y];
    assert Join([y], '/') == y;
    assert Join([d, y], '/') == d + ['/'] + y;
  }

  lemma SplitThree(m: string, d: string, y: string)
    requires '/' !in m && '/' !in d && '/' !in y
    ensures Split(m + "/" + d + "/" + y, '/') == [m, d, y]
  {
    JoinThree(m, d, y);
    SplitJoin([m, d, y], '/');
  }

  /** The split test accepts exactly the strings the pattern matches. */
  lemma DateShapeMatchesPattern(t: string)
    ensures IsDateShape(t) <==> MatchesDatePattern(t)
  {
    if IsDateShape(t) {
      var parts := Split(t, '/');
      JoinSplit(t, '/');
      assert parts == [parts[0], parts[1], parts[2]];
      JoinThree(parts[0], parts[1], parts[2]);
      assert t == parts[0] + "/" + parts[1] + "/" + parts[2];
    }
    if MatchesDatePattern(t) {
      var m: string, d: string, y: string :| t == m + "/" + d + "/" + y && DateGroups(m, d, y);
      assert '/' !in m && '/' !in d && '/' !in y;
      SplitThree(m, d, y);
    }
  }

  /** `dateStr.trim().replace(/-/g, '/')`. */
  function Normalized(dateStr: string): (r: string)
    ensures |r| == |Trim(dateStr)|
    ensures '-' !in r
    ensures forall i :: 0 <= i < |r| ==> Trim(dateStr)[i] != '-' ==> r[i] == Trim(dateStr)[i]
    ensures |r| > 0 ==> !IsSpace(r[0]) && !IsSpace(r[|r| - 1])
  {
    ReplaceChar(Trim(dateStr), '-', '/')
  }

  /** `dd/dd/dddd`. */
  predicate IsUsDate(s: string) {
    && |s| == 10 && s[2] == '/' && s[5] == '/'
    && AllDigits(s[..2]) && AllDigits(s[3..5]) && AllDigits(s[6..])
  }

  /** One or two digits padded to exactly two. */
  lemma PadDigits(s: string)
    requires 1 <= |s| <= 2 && AllDigits(s)
    ensures |PadStart2(s)| == 2 && AllDigits(PadStart2(s))
  {
  }

  /** The output built from three groups. */
  function JoinDate(m: string, d: string, y: string): (out: string)
    requires DateGroups(m, d, y)
    ensures IsUsDate(out)
    ensures out[..2] == PadStart2(m) && out[3..5] == PadStart2(d)
    ensures out[6..] == if |y| == 2 then "19" + y else y
  {
    PadDigits(m);
    PadDigits(d);
    var year := if |y| == 2 then "19" + y else y;
    var out := PadStart2(m) + "/" + PadStart2(d) + "/" + year;
    assert out[..2] == PadStart2(m);
    assert out[3..5] == PadStart2(d);
    assert out[6..] == year;
    out
  }

  /** `formatToMMDDYYYY`: month and day padded to two digits, a two-digit
      year put in the 1900s; input the pattern rejects throws. */
  function FormatToMMDDYYYY(dateStr: string): (r: Result<string>)
    ensures r.Ok? <==> IsDateShape(Normalized(dateStr))
    ensures r.Err? ==> r.message == "Invalid date format: " + dateStr
    ensures r.Ok? ==> IsUsDate(r.value)
  {
    var t := Normalized(dateStr);
    if !IsDateShape(t) then Err("Invalid date format: " + dateStr)
    else
      var parts := Split(t, '/');
      Ok(JoinDate(parts[0], parts[1], parts[2]))
  }

  /** It accepts exactly the inputs whose trimmed, dash-replaced form
      matches the pattern. */
  lemma FormatAcceptsExactlyThePattern(dateStr: string)
    ensures FormatToMMDDYYYY(dateStr).Ok? <==> MatchesDatePattern(Normalized(dateStr))
  {
    DateShapeMatchesPattern(Normalized(dateStr));
  }

  lemma ReplaceCharAbsent(s: string, c: char, d: char)
    requires c !in s
    ensures ReplaceChar(s, c, d) == s
  {
  }

  /** A date written as the pattern asks holds only digits and slashes. */
  lemma GroupsAreDigitsAndSlashes(m: string, d: string, y: string)
    requires DateGroups(m, d, y)
    ensures var t := m + "/" + d + "/" + y;
      forall i :: 0 <= i < |t| ==> IsDigit(t[i]) || t[i] == '/'
  {
    var t := m + "/" + d + "/" + y;
    forall i | 0 <= i < |t|
      ensures IsDigit(t[i]) || t[i] == '/'
    {
      if i < |m| {
        assert t[i] == m[i];
      } else if i == |m| {
      } else if i < |m| + 1 + |d| {
        assert t[i] == d[i - |m| - 1];
      } else if i == |m| + 1 + |d| {
      } else {
        assert t[i] == y[i - |m| - |d| - 2];
      }
    }
  }

  /** A date written as the pattern asks is already normalised. */
  lemma NormalizedOfGroups(m: string, d: string, y: string)
    requires DateGroups(m, d, y)
    ensures Normalized(m + "/" + d + "/" + y) == m + "/" + d + "/" + y
  {
    var t := m + "/" + d + "/" + y;
    assert t[0] == m[0] && t[|t| - 1] == y[|y| - 1];
    GroupsAreDigitsAndSlashes(m, d, y);
    NormalizedOfDigitsAndSlashes(t);
  }

  /** The normaliser keeps the three digit groups: month and day keep
      their digits behind the added zeros, and a two-digit year yy
      becomes 19yy. */
  lemma FormatKeepsGroups(m: string, d: string, y: string)
    requires DateGroups(m, d, y)
    ensures FormatToMMDDYYYY(m + "/" + d + "/" + y) == Ok(JoinDate(m, d, y))
  {
    var t := m + "/" + d + "/" + y;
    GroupsSlashFree(m, d, y);
    SplitThree(m, d, y);
    NormalizedOfGroups(m, d, y);
    FormatOfShape(t);
  }

  lemma GroupsSlashFree(m: string, d: string, y: string)
    requires DateGroups(m, d, y)
    ensures '/' !in m && '/' !in d && '/' !in y
  {
    assert !IsDigit('/');
  }

  /** An input whose normalised form has the date shape is formatted from
      the three pieces of that form. */
  lemma FormatOfShape(dateStr: string)
    requires IsDateShape(Normalized(dateStr))
    ensures var parts := Split(Normalized(dateStr), '/');
      FormatToMMDDYYYY(dateStr) == Ok(JoinDate(parts[0], parts[1], parts[2]))
  {
  }

  /** Normalising a normalised date changes nothing. */
  lemma FormatToMMDDYYYYIdempotent(dateStr: string)
    requires FormatToMMDDYYYY(dateStr).Ok?
    ensures FormatToMMDDYYYY(FormatToMMDDYYYY(dateStr).value) == FormatToMMDDYYYY(dateStr)
  {
    var out := FormatToMMDDYYYY(dateStr).value;
    assert out == out[..2] + "/" + out[3..5] + "/" + out[6..];
    FormatKeepsGroups(out[..2], out[3..5], out[6..]);
    assert JoinDate(out[..2], out[3..5], out[6..]) == out;
  }

  lemma JoinDateNinetyNine(n: string)
    requires n == "99"
    ensures DateGroups(n, n, n) && JoinDate(n, n, n) == "99/99/1999"
  {
  }

  /** There is no range check: "99/99/99" becomes "99/99/1999". */
  lemma FormatToMMDDYYYYExample(dateStr: string)
    requires dateStr == "99/99/99"
    ensures FormatToMMDDYYYY(dateStr) == Ok("99/99/1999")
  {
    var n := "99";
    assert dateStr == n + "/" + n + "/" + n;
    JoinDateNinetyNine(n);
    FormatKeepsGroups(n, n, n);
  }

  /** A three-digit year throws. */
  lemma FormatRejectsThreeDigitYear()
    ensures FormatToMMDDYYYY("1/2/123").Err?
  {
    var m, d, y := "1", "2", "123";
    var t := m + "/" + d + "/" + y;
    assert t == "1/2/123";
    NormalizedOfDigitsAndSlashes(t);
    SplitThree(m, d, y);
    assert !DateGroups(m, d, y);
  }

  lemma NormalizedOfDigitsAndSlashes(t: string)
    requires |t| > 0 && IsDigit(t[0]) && IsDigit(t[|t| - 1])
    requires forall i :: 0 <= i < |t| ==> IsDigit(t[i]) || t[i] == '/'
    ensures Normalized(t) == t
  {
    TrimOfClean(t);
    ReplaceCharAbsent(t, '-', '/');
  }

  // ---------------------------------------------------------------------
  // captureAndAttach

  /** `${counter}_${safeStepName}_${timestamp}.png`. */
  function ScreenshotFileName(counter: nat, stepName: string, stamp: string): (name: string)
    ensures EndsWith(name, ".png")
    ensures StartsWith(name, NatToString(counter) + "_")
    ensures |name| == |NatToString(counter)| + |Underscored(stepName)| + |SanitizeTimestamp(stamp)| + 6
    ensures name[|NatToString(counter)| + 1..|name| - 4] == Underscored(stepName) + "_" + SanitizeTimestamp(stamp)
  {
    var mid := Underscored(stepName) + "_" + SanitizeTimestamp(stamp);
    var rest := mid + ".png";
    var name := CounterName(counter, rest);
    var k := |NatToString(counter)| + 1;
    assert name[k..] == rest;
    assert name[k..|name| - 4] == rest[..|mid|] == mid;
    assert name[..k] == NatToString(counter) + "_";
    name
  }

  /** Names from calls with different counters differ, whatever the step
      names and timestamps. */
  lemma ScreenshotFileNamesDistinct(a: nat, sa: string, ta: string, b: nat, sb: string, tb: string)
    requires a != b
    ensures ScreenshotFileName(a, sa, ta) != ScreenshotFileName(b, sb, tb)
  {
    CounterNameInjective(a, Underscored(sa) + "_" + SanitizeTimestamp(ta) + ".png",
                         b, Underscored(sb) + "_" + SanitizeTimestamp(tb) + ".png");
  }

  /** `captureAndAttach`: bumps the counter, then names the screenshot
      with the new value; the attachment is named after the step alone. */
  method CaptureAndAttach(c: Counter, stepName: string, stamp: string)
    returns (fileName: string, attachment: string)
    modifies c
    ensures c.value == old(c.value) + 1
    ensures fileName == ScreenshotFileName(c.value, stepName, stamp)
    ensures attachment == "Step: " + stepName
  {
    var n := c.Next();
    fileName := ScreenshotFileName(n, stepName, stamp);
    attachment := "Step: " + stepName;
  }
}
