/**
 Server-location labels (src/connection/server-location-stats.util.ts) and the location buckets of
 getConnectionStats (src/connection/connection.service.ts).

 String.prototype.toLowerCase is a parameter `lower`: all that is needed of it is that it lower-cases the one
 constant label "United Kingdom".
 */
module Locations {
  import opened Common

  const DOT: char := '\U{00B7}'
  const SEPARATOR: string := [' ', DOT, ' ']
  const UNITED_KINGDOM: string := "United Kingdom"
  const UK_EXACT: set<string> := {
    "england", "scotland", "wales", "northern ireland", "united kingdom", "uk", "u.k.", "u.k", "gb",
    "great britain", "britain"
  }

  // ---------- Strings ----------

  /** The white space and line terminators that trim() and \s know. */
  predicate IsSpace(c: char) {
    var u := c as int;
    || 0x09 <= u <= 0x0D || u == 0x20 || u == 0xA0 || u == 0x1680 || 0x2000 <= u <= 0x200A
    || u == 0x2028 || u == 0x2029 || u == 0x202F || u == 0x205F || u == 0x3000 || u == 0xFEFF
  }

  function TrimStart(s: string): string {
    if s != [] && IsSpace(s[0]) then TrimStart(s[1..]) else s
  }

  function TrimEnd(s: string): string {
    if s != [] && IsSpace(s[|s| - 1]) then TrimEnd(s[..|s| - 1]) else s
  }

  function Trim(s: string): string {
    TrimEnd(TrimStart(s))
  }

  predicate Trimmed(s: string) {
    s != [] ==> !IsSpace(s[0]) && !IsSpace(s[|s| - 1])
  }

  predicate Includes(s: string, sub: string) {
    sub <= s || (s != [] && Includes(s[1..], sub))
  }

  predicate StartsWith(s: string, prefix: string) {
    prefix <= s
  }

  predicate EndsWith(s: string, suffix: string) {
    |suffix| <= |s| && s[|s| - |suffix|..] == suffix
  }

  /** The pieces between dots. The source's pattern also drops the white space around each dot, which the trim that
      follows it drops anyway. */
  function Split(s: string): (pieces: seq<string>)
    ensures |pieces| > 0
  {
    if s == [] then [[]]
    else
      var rest := Split(s[1..]);
      if s[0] == DOT then [[]] + rest else [[s[0]] + rest[0]] + rest[1..]
  }

  /** .map(trim).filter(Boolean) */
  function TrimAll(pieces: seq<string>): seq<string> {
    if pieces == [] then []
    else (if Trim(pieces[0]) == [] then [] else [Trim(pieces[0])]) + TrimAll(pieces[1..])
  }

  function Join(parts: seq<string>): string {
    if parts == [] then [] else if |parts| == 1 then parts[0] else parts[0] + SEPARATOR + Join(parts[1..])
  }

  // ---------- Normalisation ----------

  function NormalizeCountry(lower: string -> string, t: string): string {
    var trimmed := Trim(t);
    if trimmed == [] then []
    else
      var l := lower(trimmed);
      if Includes(l, "new england") then trimmed
      else if l == "republic of ireland" || l == "ireland" then trimmed
      else if l in UK_EXACT then UNITED_KINGDOM
      else if Includes(l, "united kingdom") || Includes(l, "n.ireland") then UNITED_KINGDOM
      else if Includes(l, ", england") || Includes(l, " england,") then UNITED_KINGDOM
      else if Includes(l, ", scotland") || Includes(l, " scotland,") then UNITED_KINGDOM
      else if Includes(l, ", wales") || Includes(l, " wales,") then UNITED_KINGDOM
      else if EndsWith(l, "england") && !StartsWith(l, "new ") then UNITED_KINGDOM
      else if Includes(l, " scotland") && l != "scotland" then UNITED_KINGDOM
      else trimmed
  }

  function Parts(t: string): seq<string> {
    TrimAll(Split(t))
  }

  /** normalizeServerLocationForStats, given how it normalises a country. */
  function NormalizeWith(country: string -> string, raw: Option<string>): string {
    match raw
    case None => []
    case Some(text) =>
      var t := Trim(text);
      if t == [] then []
      else
        var parts := Parts(t);
        if |parts| >= 2 then
          var countryNorm := country(parts[0]);
          var rest := Join(parts[1..]);
          if countryNorm == [] then rest
          else if rest != [] then countryNorm + SEPARATOR + rest
          else countryNorm
        else country(t)
  }

  function Country(lower: string -> string): string -> string {
    (t: string) => NormalizeCountry(lower, t)
  }

  function Normalize(lower: string -> string, raw: Option<string>): string {
    NormalizeWith(Country(lower), raw)
  }

  // ---------- Trimming ----------

  predicate NoDot(s: string) {
    forall i :: 0 <= i < |s| ==> s[i] != DOT
  }

  /** A part as Parts produces it. */
  predicate GoodPart(s: string) {
    s != [] && Trimmed(s) && NoDot(s)
  }

  predicate GoodParts(parts: seq<string>) {
    forall i :: 0 <= i < |parts| ==> GoodPart(parts[i])
  }

  lemma {:induction false} TrimStartResult(s: string)
    ensures var r := TrimStart(s);
            (r != [] ==> !IsSpace(r[0])) && (NoDot(s) ==> NoDot(r))
  {
    if s == [] || !IsSpace(s[0]) {
    } else {
      TrimStartResult(s[1..]);
    }
  }

  lemma {:induction false} TrimEndResult(s: string)
    ensures TrimEnd(s) <= s
    ensures TrimEnd(s) != [] ==> !IsSpace(TrimEnd(s)[|TrimEnd(s)| - 1])
  {
    if s == [] || !IsSpace(s[|s| - 1]) {
    } else {
      TrimEndResult(s[..|s| - 1]);
    }
  }

  lemma TrimResult(s: string)
    ensures Trimmed(Trim(s)) && Trim(Trim(s)) == Trim(s)
    ensures NoDot(s) ==> NoDot(Trim(s))
  {
    TrimStartResult(s);
    TrimEndResult(TrimStart(s));
  }

  /** The white space of sections 12.2 and 12.3 of ECMA-262, with the space separators of Unicode. */
  const WHITE_SPACE: set<int> := {
    0x09, 0x0A, 0x0B, 0x0C, 0x0D, 0x20, 0xA0, 0x1680, 0x2000, 0x2001, 0x2002, 0x2003, 0x2004, 0x2005, 0x2006, 0x2007,
    0x2008, 0x2009, 0x200A, 0x2028, 0x2029, 0x202F, 0x205F, 0x3000, 0xFEFF
  }

  lemma SpacesAreWhiteSpace(c: char)
    ensures IsSpace(c) <==> c as int in WHITE_SPACE
  {
  }

  /** Trimming cuts off white space at both ends, and nothing else. */
  lemma TrimKeepsMiddle(s: string) returns (i: nat, j: nat)
    ensures i <= j <= |s| && Trim(s) == s[i..j]
    ensures forall k :: (0 <= k < i || j <= k < |s|) ==> IsSpace(s[k])
  {
    i := TrimStartCuts(s);
    j := TrimEndCuts(s[i..]);
    assert s[i..][..j] == s[i..i + j];
    forall k | i + j <= k < |s|
      ensures IsSpace(s[k])
    {
      assert s[k] == s[i..][k - i];
    }
    j := i + j;
  }

  lemma {:induction false} TrimStartCuts(s: string) returns (i: nat)
    ensures i <= |s| && TrimStart(s) == s[i..] && forall k :: 0 <= k < i ==> IsSpace(s[k])
  {
    if s == [] || !IsSpace(s[0]) {
      i := 0;
    } else {
      var i0 := TrimStartCuts(s[1..]);
      i := i0 + 1;
      forall k | 0 <= k < i
        ensures IsSpace(s[k])
      {
        assert k > 0 ==> s[k] == s[1..][k - 1];
      }
    }
  }

  lemma {:induction false} TrimEndCuts(s: string) returns (j: nat)
    ensures j <= |s| && TrimEnd(s) == s[..j] && forall k :: j <= k < |s| ==> IsSpace(s[k])
  {
    if s == [] || !IsSpace(s[|s| - 1]) {
      j := |s|;
    } else {
      j := TrimEndCuts(s[..|s| - 1]);
    }
  }

  lemma TrimmedIsFixed(s: string)
    requires Trimmed(s)
    ensures Trim(s) == s
  {
  }

  lemma TrimPadded(s: string)
    requires Trimmed(s) && s != []
    ensures Trim([' '] + s) == s && Trim(s + [' ']) == s && Trim([' '] + s + [' ']) == s
  {
    assert ([' '] + s)[1..] == s;
    assert TrimStart([' '] + s) == TrimStart(s) == s;
    assert (s + [' '])[..|s|] == s;
    assert TrimEnd(s + [' ']) == TrimEnd(s) == s;
    assert ([' '] + s + [' '])[1..] == s + [' '];
  }

  // ---------- Splitting a join ----------

  lemma {:induction false} SplitPiece(a: string, b: string)
    requires NoDot(a)
    ensures Split(a) == [a]
    ensures Split(a + [DOT] + b) == [a] + Split(b)
  {
    if a == [] {
      assert a + [DOT] + b == [DOT] + b;
      assert ([DOT] + b)[1..] == b;
    } else {
      SplitPiece(a[1..], b);
      assert (a + [DOT] + b)[1..] == a[1..] + [DOT] + b;
      assert [a[0]] + a[1..] == a;
    }
  }

  lemma {:induction false} SplitHasNoDot(s: string)
    ensures forall i :: 0 <= i < |Split(s)| ==> NoDot(Split(s)[i])
  {
    if s == [] {
    } else {
      SplitHasNoDot(s[1..]);
    }
  }

  lemma {:induction false} TrimAllGivesGoodParts(pieces: seq<string>)
    requires forall i :: 0 <= i < |pieces| ==> NoDot(pieces[i])
    ensures GoodParts(TrimAll(pieces))
  {
    if pieces == [] {
    } else {
      TrimResult(pieces[0]);
      TrimAllGivesGoodParts(pieces[1..]);
    }
  }

  lemma PartsAreGood(t: string)
    ensures GoodParts(Parts(t))
  {
    SplitHasNoDot(t);
    TrimAllGivesGoodParts(Split(t));
  }

  lemma TrimAllCons(piece: string, rest: seq<string>)
    requires Trim(piece) != []
    ensures TrimAll([piece]) == [Trim(piece)]
    ensures TrimAll([piece] + rest) == [Trim(piece)] + TrimAll(rest)
  {
    assert ([piece] + rest)[1..] == rest;
    assert [piece][1..] == [];
  }

  predicate Blank(lead: string) {
    lead == [] || lead == [' ']
  }

  lemma PartsOfOne(lead: string, part: string)
    requires Blank(lead) && GoodPart(part)
    ensures Parts(lead + part) == [part]
  {
    TrimmedIsFixed(part);
    TrimPadded(part);
    SplitPiece(lead + part, []);
    TrimAllCons(lead + part, []);
    assert lead == [] ==> lead + part == part;
  }

  lemma PartsOfMore(lead: string, part: string, rest: string)
    requires Blank(lead) && GoodPart(part)
    ensures Parts(lead + (part + SEPARATOR + rest)) == [part] + Parts([' '] + rest)
  {
    TrimmedIsFixed(part);
    TrimPadded(part);
    var piece := lead + part + [' '];
    assert lead + (part + SEPARATOR + rest) == piece + [DOT] + ([' '] + rest);
    SplitPiece(piece, [' '] + rest);
    assert lead == [] ==> piece == part + [' '];
    TrimAllCons(piece, Split([' '] + rest));
  }

  /** Splitting a join gives the parts back, also when a blank precedes it. */
  lemma {:induction false} PartsOfJoin(lead: string, parts: seq<string>)
    requires Blank(lead) && |parts| > 0 && GoodParts(parts)
    ensures Parts(lead + Join(parts)) == parts
    decreases |parts|
  {
    if |parts| == 1 {
      PartsOfOne(lead, parts[0]);
    } else {
      PartsOfMore(lead, parts[0], Join(parts[1..]));
      PartsOfJoin([' '], parts[1..]);
    }
  }

  lemma {:induction false} JoinIsTrimmed(parts: seq<string>)
    requires |parts| > 0 && GoodParts(parts)
    ensures Join(parts) != [] && Trimmed(Join(parts))
  {
    assert GoodPart(parts[0]);
    if |parts| == 1 {
    } else {
      JoinIsTrimmed(parts[1..]);
    }
  }

  // ---------- Which labels are British ----------

  predicate At(s: string, i: int, sub: string) {
    0 <= i <= |s| - |sub| && s[i..i + |sub|] == sub
  }

  /** What includes() finds is a part of the string. */
  lemma {:induction false} IncludesExactly(s: string, sub: string)
    ensures Includes(s, sub) <==> exists i :: At(s, i, sub)
  {
    if s == [] {
      assert Includes(s, sub) ==> At(s, 0, sub);
    } else {
      IncludesExactly(s[1..], sub);
      assert sub <= s <==> At(s, 0, sub);
      if i :| At(s[1..], i, sub) {
        assert s[i + 1..i + 1 + |sub|] == s[1..][i..i + |sub|];
        assert At(s, i + 1, sub);
      }
      if i :| At(s, i, sub) && i > 0 {
        assert s[i..i + |sub|] == s[1..][i - 1..i - 1 + |sub|];
        assert At(s[1..], i - 1, sub);
      }
    }
  }

  lemma IncludesPart(s: string, before: string, part: string, after: string)
    requires Includes(s, before + part + after)
    ensures Includes(s, part)
  {
    var whole := before + part + after;
    IncludesExactly(s, whole);
    IncludesExactly(s, part);
    var i :| At(s, i, whole);
    var k := i + |before|;
    assert s[k..k + |part|] == s[i..i + |whole|][|before|..|before| + |part|];
    assert At(s, k, part);
  }

  predicate MentionsPart(l: string) {
    || Includes(l, "england") || Includes(l, "scotland") || Includes(l, "wales") || Includes(l, "united kingdom")
    || Includes(l, "n.ireland")
  }

  /** A label that is none of the exact names and mentions no part of the country by name stays what it is. */
  lemma OtherCountriesStay(lower: string -> string, t: string)
    requires lower(Trim(t)) !in UK_EXACT && !MentionsPart(lower(Trim(t)))
    ensures NormalizeCountry(lower, t) == Trim(t)
  {
    var l := lower(Trim(t));
    WordMentionsPart(l, "england");
    WordMentionsPart(l, "scotland");
    WordMentionsPart(l, "wales");
    SuffixIsIncluded(l, "england");
    if Includes(l, " scotland") {
      assert " scotland" == " " + "scotland" + "";
      IncludesPart(l, " ", "scotland", "");
    }
    assert ", england" == ", " + "england" && " england," == " " + "england" + ",";
    assert ", scotland" == ", " + "scotland" && " scotland," == " " + "scotland" + ",";
    assert ", wales" == ", " + "wales" && " wales," == " " + "wales" + ",";
  }

  lemma WordMentionsPart(l: string, word: string)
    ensures Includes(l, ", " + word) || Includes(l, " " + word + ",") ==> Includes(l, word)
  {
    if Includes(l, ", " + word) {
      assert ", " + word == ", " + word + "";
      IncludesPart(l, ", ", word, "");
    }
    if Includes(l, " " + word + ",") {
      IncludesPart(l, " ", word, ",");
    }
  }

  lemma SuffixIsIncluded(s: string, suffix: string)
    ensures EndsWith(s, suffix) ==> Includes(s, suffix)
  {
    IncludesExactly(s, suffix);
    assert EndsWith(s, suffix) ==> At(s, |s| - |suffix|, suffix);
  }

  /** Ireland and New England are not British. */
  lemma NeighboursStay(lower: string -> string, t: string)
    requires var l := lower(Trim(t)); l == "ireland" || l == "republic of ireland" || Includes(l, "new england")
    ensures NormalizeCountry(lower, t) == Trim(t)
  {
  }

  /** Any other non-blank label is, if it is an exact name, names a part after or before a comma, or ends in England. */
  lemma PartsAreBritish(lower: string -> string, t: string)
    requires Trim(t) != []
    requires var l := lower(Trim(t));
             && l != "ireland" && l != "republic of ireland" && !Includes(l, "new england")
             && (|| l in UK_EXACT || Includes(l, "united kingdom") || Includes(l, "n.ireland")
                 || Includes(l, ", england") || Includes(l, " england,") || Includes(l, ", scotland")
                 || Includes(l, " scotland") || Includes(l, ", wales") || Includes(l, " wales,")
                 || (EndsWith(l, "england") && !StartsWith(l, "new ")))
    ensures NormalizeCountry(lower, t) == UNITED_KINGDOM
  {
  }

  // ---------- Main results ----------

  predicate LowercasesUnitedKingdom(lower: string -> string) {
    lower(UNITED_KINGDOM) == "united kingdom"
  }

  lemma {:induction false} DoesNotInclude(s: string, sub: string, k: nat)
    requires k < |sub| && forall i :: 0 <= i < |s| ==> s[i] != sub[k]
    ensures !Includes(s, sub)
  {
    if s != [] {
      if |sub| <= |s| {
        assert s[k] != sub[k];
      }
      DoesNotInclude(s[1..], sub, k);
    } else {
      assert !(sub <= s);
    }
  }

  lemma ExactNamesAreUk(lower: string -> string, t: string)
    requires t != [] && Trim(t) == t && lower(t) in UK_EXACT && !Includes(lower(t), "new england")
    requires lower(t) != "republic of ireland" && lower(t) != "ireland"
    ensures NormalizeCountry(lower, t) == UNITED_KINGDOM
  {
  }

  lemma UnitedKingdomIsGood()
    ensures GoodPart(UNITED_KINGDOM)
  {
  }

  lemma UnitedKingdomIsFixed(lower: string -> string)
    requires LowercasesUnitedKingdom(lower)
    ensures GoodPart(UNITED_KINGDOM) && NormalizeCountry(lower, UNITED_KINGDOM) == UNITED_KINGDOM
  {
    UnitedKingdomIsGood();
    TrimmedIsFixed(UNITED_KINGDOM);
    DoesNotInclude("united kingdom", "new england", 2);
    ExactNamesAreUk(lower, UNITED_KINGDOM);
  }

  /** What the rest needs to know about country labels. */
  ghost predicate NormalizesCountries(country: string -> string) {
    && country(UNITED_KINGDOM) == UNITED_KINGDOM
    && forall t :: CountryLaws(country, t)
  }

  predicate CountryLaws(country: string -> string, t: string) {
    && (country(t) == UNITED_KINGDOM || country(t) == Trim(t))
    && country(country(t)) == country(t)
    && (country(t) == [] <==> Trim(t) == [])
  }

  lemma CountryIsUkOrTrimmed(lower: string -> string)
    requires LowercasesUnitedKingdom(lower)
    ensures NormalizesCountries(Country(lower))
  {
    UnitedKingdomIsFixed(lower);
    forall t
      ensures CountryLaws(Country(lower), t)
    {
      OneCountry(lower, t);
    }
  }

  lemma OneCountry(lower: string -> string, t: string)
    requires NormalizeCountry(lower, UNITED_KINGDOM) == UNITED_KINGDOM
    ensures NormalizeCountry(lower, t) == UNITED_KINGDOM || NormalizeCountry(lower, t) == Trim(t)
    ensures NormalizeCountry(lower, NormalizeCountry(lower, t)) == NormalizeCountry(lower, t)
    ensures NormalizeCountry(lower, t) == [] <==> Trim(t) == []
  {
    TrimResult(t);
  }

  /** What NormalizeWith makes of a join of good parts whose country is already normal. */
  lemma NormalizeOfParts(country: string -> string, parts: seq<string>)
    requires |parts| > 0 && GoodParts(parts) && country(parts[0]) == parts[0]
    ensures NormalizeWith(country, Some(Join(parts))) == Join(parts)
  {
    JoinIsTrimmed(parts);
    TrimmedIsFixed(Join(parts));
    PartsOfJoin([], parts);
    assert [] + Join(parts) == Join(parts);
    if |parts| >= 2 {
      JoinIsTrimmed(parts[1..]);
    }
  }

  lemma NormalizeWithIsIdempotent(country: string -> string, text: string)
    requires NormalizesCountries(country)
    ensures var once := NormalizeWith(country, Some(text));
            NormalizeWith(country, Some(once)) == once && (once == [] <==> Trim(text) == [])
  {
    var t := Trim(text);
    var parts := Parts(t);
    TrimResult(text);
    PartsAreGood(t);
    UnitedKingdomIsGood();
    assert CountryLaws(country, t);
    if |parts| >= 2 {
      assert CountryLaws(country, parts[0]);
      TrimmedIsFixed(parts[0]);
      var again := [country(parts[0])] + parts[1..];
      JoinIsTrimmed(parts[1..]);
      assert again[1..] == parts[1..];
      NormalizeOfParts(country, again);
    } else {
      NormalizeOfParts(country, [UNITED_KINGDOM]);
    }
  }

  /** Normalising twice is normalising once, for every label, null included, and only null and blank labels become
      empty. */
  lemma NormalizeIsIdempotent(lower: string -> string, raw: Option<string>)
    requires LowercasesUnitedKingdom(lower)
    ensures Normalize(lower, Some(Normalize(lower, raw))) == Normalize(lower, raw)
    ensures Normalize(lower, raw) == [] <==> raw == None || Trim(raw.value) == []
  {
    CountryIsUkOrTrimmed(lower);
    if raw.Some? {
      NormalizeWithIsIdempotent(Country(lower), raw.value);
    }
  }

  // ---------- Bucketing ----------

  /** A row of the GROUP BY server_location query, and an entry of the insertion-ordered Map byBucket. */
  datatype Row = Row(text: string, sessions: nat)
  datatype Bucket = Bucket(displayName: string, count: nat)

  /** byBucket.set(name, (byBucket.get(name) ?? 0) + n) */
  function AddTo(buckets: seq<Bucket>, name: string, n: nat): seq<Bucket> {
    if buckets == [] then [Bucket(name, n)]
    else if buckets[0].displayName == name then [Bucket(name, buckets[0].count + n)] + buckets[1..]
    else [buckets[0]] + AddTo(buckets[1..], name, n)
  }

  function CountOf(buckets: seq<Bucket>, name: string): nat {
    if buckets == [] then 0
    else (if buckets[0].displayName == name then buckets[0].count else 0) + CountOf(buckets[1..], name)
  }

  function TotalCount(buckets: seq<Bucket>): nat {
    if buckets == [] then 0 else buckets[0].count + TotalCount(buckets[1..])
  }

  /** The bucket of a row. */
  function BucketName(lower: string -> string): Row -> string {
    (row: Row) => Normalize(lower, Some(row.text))
  }

  /** All sessions of rows that have a bucket, that is, whose label is not blank. */
  function LabelledSessions(key: Row -> string, rows: seq<Row>): nat {
    if rows == [] then 0
    else LabelledSessions(key, rows[..|rows| - 1])
         + (if key(rows[|rows| - 1]) == [] then 0 else rows[|rows| - 1].sessions)
  }

  /** The sessions of the rows of one bucket. */
  function SessionsOf(key: Row -> string, rows: seq<Row>, name: string): nat {
    if rows == [] then 0
    else SessionsOf(key, rows[..|rows| - 1], name)
         + (if key(rows[|rows| - 1]) == name then rows[|rows| - 1].sessions else 0)
  }

  predicate DistinctNames(buckets: seq<Bucket>) {
    forall i, j :: 0 <= i < j < |buckets| ==> buckets[i].displayName != buckets[j].displayName
  }

  ghost predicate HasName(buckets: seq<Bucket>, name: string) {
    exists i :: 0 <= i < |buckets| && buckets[i].displayName == name
  }

  lemma HasNameTail(buckets: seq<Bucket>, name: string)
    requires buckets != []
    ensures HasName(buckets, name) <==> buckets[0].displayName == name || HasName(buckets[1..], name)
  {
    if HasName(buckets, name) && buckets[0].displayName != name {
      var i :| 0 <= i < |buckets| && buckets[i].displayName == name;
      assert buckets[1..][i - 1].displayName == name;
    }
  }

  lemma DistinctTail(buckets: seq<Bucket>)
    requires buckets != []
    ensures DistinctNames(buckets) <==>
              DistinctNames(buckets[1..]) && !HasName(buckets[1..], buckets[0].displayName)
  {
    var tail := buckets[1..];
    if DistinctNames(tail) && !HasName(tail, buckets[0].displayName) {
      forall i, j | 0 <= i < j < |buckets|
        ensures buckets[i].displayName != buckets[j].displayName
      {
        assert buckets[j] == tail[j - 1];
        assert i > 0 ==> buckets[i] == tail[i - 1];
      }
    }
  }

  /** Counting n more sessions for a name. */
  lemma {:induction false} AddToResult(buckets: seq<Bucket>, name: string, n: nat, x: string)
    requires DistinctNames(buckets)
    ensures var r := AddTo(buckets, name, n);
            && TotalCount(r) == TotalCount(buckets) + n
            && DistinctNames(r)
            && (HasName(r, x) <==> x == name || HasName(buckets, x))
            && CountOf(r, x) == CountOf(buckets, x) + (if x == name then n else 0)
  {
    var r := AddTo(buckets, name, n);
    HasNameTail(r, x);
    DistinctTail(r);
    if buckets == [] {
    } else {
      HasNameTail(buckets, x);
      DistinctTail(buckets);
      if buckets[0].displayName != name {
        AddToResult(buckets[1..], name, n, x);
        AddToResult(buckets[1..], name, n, buckets[0].displayName);
      } else if x == name {
        CountOfAbsent(buckets[1..], x);
      }
    }
  }

  lemma {:induction false} CountOfAbsent(buckets: seq<Bucket>, name: string)
    requires !HasName(buckets, name)
    ensures CountOf(buckets, name) == 0
  {
    if buckets == [] {
    } else {
      HasNameTail(buckets, name);
      CountOfAbsent(buckets[1..], name);
    }
  }

  lemma {:induction false} CountOfMember(buckets: seq<Bucket>, i: nat)
    requires DistinctNames(buckets) && i < |buckets|
    ensures CountOf(buckets, buckets[i].displayName) == buckets[i].count
  {
    DistinctTail(buckets);
    if i == 0 {
      CountOfAbsent(buckets[1..], buckets[0].displayName);
    } else {
      CountOfMember(buckets[1..], i - 1);
    }
  }

  lemma {:induction false} TotalOfConcat(a: seq<Bucket>, b: seq<Bucket>)
    ensures TotalCount(a + b) == TotalCount(a) + TotalCount(b)
  {
    if a == [] {
      assert a + b == b;
    } else {
      assert (a + b)[1..] == a[1..] + b;
      TotalOfConcat(a[1..], b);
    }
  }

  predicate Descending(buckets: seq<Bucket>) {
    forall i, j :: 0 <= i < j < |buckets| ==> buckets[i].count >= buckets[j].count
  }

  function Insert(b: Bucket, sorted: seq<Bucket>): seq<Bucket> {
    if sorted == [] || b.count >= sorted[0].count then [b] + sorted
    else [sorted[0]] + Insert(b, sorted[1..])
  }

  /** sort((a, b) => b.count - a.count), a stable sort. */
  function SortDescending(buckets: seq<Bucket>): seq<Bucket> {
    if buckets == [] then [] else Insert(buckets[0], SortDescending(buckets[1..]))
  }

  lemma {:induction false} InsertIsDescending(b: Bucket, sorted: seq<Bucket>)
    requires Descending(sorted)
    ensures Descending(Insert(b, sorted)) && |Insert(b, sorted)| == |sorted| + 1
    ensures Insert(b, sorted)[0] == b || (sorted != [] && Insert(b, sorted)[0] == sorted[0])
  {
    if sorted == [] || b.count >= sorted[0].count {
    } else {
      InsertIsDescending(b, sorted[1..]);
      var r := Insert(b, sorted[1..]);
      assert r[0].count <= sorted[0].count;
      forall j | 0 <= j < |r|
        ensures r[j].count <= sorted[0].count
      {
        assert j > 0 ==> r[0].count >= r[j].count;
      }
    }
  }

  /** Inserting permutes: the total, the names and every name's count are those of b before sorted. */
  lemma {:induction false} InsertPermutes(b: Bucket, sorted: seq<Bucket>, x: string)
    ensures var r := Insert(b, sorted);
            && TotalCount(r) == b.count + TotalCount(sorted)
            && (HasName(r, x) <==> b.displayName == x || HasName(sorted, x))
            && CountOf(r, x) == (if b.displayName == x then b.count else 0) + CountOf(sorted, x)
            && (DistinctNames(r) <==> DistinctNames(sorted) && !HasName(sorted, b.displayName))
  {
    var r := Insert(b, sorted);
    HasNameTail(r, x);
    DistinctTail(r);
    if sorted == [] || b.count >= sorted[0].count {
      assert r[1..] == sorted;
    } else {
      HasNameTail(sorted, x);
      HasNameTail(sorted, b.displayName);
      DistinctTail(sorted);
      InsertPermutes(b, sorted[1..], x);
      InsertPermutes(b, sorted[1..], sorted[0].displayName);
    }
  }

  lemma {:induction false} SortIsDescending(buckets: seq<Bucket>)
    ensures Descending(SortDescending(buckets)) && |SortDescending(buckets)| == |buckets|
  {
    if buckets == [] {
    } else {
      SortIsDescending(buckets[1..]);
      InsertIsDescending(buckets[0], SortDescending(buckets[1..]));
    }
  }

  lemma {:induction false} SortPermutes(buckets: seq<Bucket>, x: string)
    requires DistinctNames(buckets)
    ensures var r := SortDescending(buckets);
            && TotalCount(r) == TotalCount(buckets) && DistinctNames(r)
            && (HasName(r, x) <==> HasName(buckets, x)) && CountOf(r, x) == CountOf(buckets, x)
  {
    if buckets == [] {
    } else {
      HasNameTail(buckets, x);
      DistinctTail(buckets);
      SortPermutes(buckets[1..], x);
      SortPermutes(buckets[1..], buckets[0].displayName);
      InsertPermutes(buckets[0], SortDescending(buckets[1..]), x);
    }
  }

  ghost predicate Labels(key: Row -> string, rows: seq<Row>, name: string) {
    exists i :: 0 <= i < |rows| && key(rows[i]) == name
  }

  /** The buckets of a list of rows: one per non-empty key, with the sessions of its rows, and nothing else. */
  ghost predicate BucketsOf(key: Row -> string, rows: seq<Row>, buckets: seq<Bucket>) {
    && DistinctNames(buckets)
    && TotalCount(buckets) == LabelledSessions(key, rows)
    && (forall x :: HasName(buckets, x) <==> x != [] && Labels(key, rows, x))
    && (forall x :: x != [] ==> CountOf(buckets, x) == SessionsOf(key, rows, x))
  }

  lemma BucketsOfNextRow(key: Row -> string, rows: seq<Row>, buckets: seq<Bucket>, row: Row)
    requires BucketsOf(key, rows, buckets)
    ensures BucketsOf(key, rows + [row], if key(row) == [] then buckets else AddTo(buckets, key(row), row.sessions))
  {
    var name, more := key(row), rows + [row];
    var next := if name == [] then buckets else AddTo(buckets, name, row.sessions);
    assert more[..|rows|] == rows;
    AddToResult(buckets, name, row.sessions, name);
    forall x
      ensures HasName(next, x) <==> x != [] && Labels(key, more, x)
      ensures x != [] ==> CountOf(next, x) == SessionsOf(key, more, x)
    {
      AddToResult(buckets, name, row.sessions, x);
      if Labels(key, rows, x) {
        var i :| 0 <= i < |rows| && key(rows[i]) == x;
        assert more[i] == rows[i];
      }
      assert more[|rows|] == row;
    }
  }

  lemma SortedBucketsOf(key: Row -> string, rows: seq<Row>, buckets: seq<Bucket>)
    requires BucketsOf(key, rows, buckets)
    ensures BucketsOf(key, rows, SortDescending(buckets))
  {
    SortPermutes(buckets, []);
    forall x
      ensures HasName(SortDescending(buckets), x) <==> HasName(buckets, x)
      ensures CountOf(SortDescending(buckets), x) == CountOf(buckets, x)
    {
      SortPermutes(buckets, x);
    }
  }

  method FillBuckets(key: Row -> string, rows: seq<Row>) returns (byBucket: seq<Bucket>)
    ensures BucketsOf(key, rows, byBucket)
  {
    byBucket := [];
    for i := 0 to |rows|
      invariant BucketsOf(key, rows[..i], byBucket)
    {
      assert rows[..i + 1] == rows[..i] + [rows[i]];
      BucketsOfNextRow(key, rows[..i], byBucket, rows[i]);
      var bucket := key(rows[i]);
      if bucket == [] {
        continue;
      }
      byBucket := AddTo(byBucket, bucket, rows[i].sessions);
    }
    assert rows[..|rows|] == rows;
  }

  /** Bucketing: the buckets hold exactly the sessions of their rows, together all sessions of labelled rows, and
      each bucket reported is at least as large as every bucket left out. */
  method TopServerLocations(lower: string -> string, rows: seq<Row>)
    returns (top: seq<Bucket>, leftOut: seq<Bucket>)
    ensures |top| <= 5 && (leftOut != [] ==> |top| == 5)
    ensures BucketsOf(BucketName(lower), rows, top + leftOut)
    ensures TotalCount(top) + TotalCount(leftOut) == LabelledSessions(BucketName(lower), rows)
    ensures Descending(top)
    ensures forall i, j :: 0 <= i < |top| && 0 <= j < |leftOut| ==> top[i].count >= leftOut[j].count
  {
    var byBucket := FillBuckets(BucketName(lower), rows);
    var sorted := SortDescending(byBucket);
    SortIsDescending(byBucket);
    SortedBucketsOf(BucketName(lower), rows, byBucket);
    var cut := if |sorted| < 5 then |sorted| else 5;
    top, leftOut := sorted[..cut], sorted[cut..];
    assert top + leftOut == sorted;
    TotalOfConcat(top, leftOut);
  }

  /** What BucketsOf says of one bucket. */
  lemma BucketCountsItsRows(key: Row -> string, rows: seq<Row>, buckets: seq<Bucket>, i: nat)
    requires BucketsOf(key, rows, buckets) && i < |buckets|
    ensures buckets[i].displayName != [] && buckets[i].count == SessionsOf(key, rows, buckets[i].displayName)
  {
    assert HasName(buckets, buckets[i].displayName);
    CountOfMember(buckets, i);
  }
}
