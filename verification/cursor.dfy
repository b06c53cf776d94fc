/** The versioned page cursor of route evidence: printed for the client, parsed back exactly. Times are microseconds. */
module EvidenceCursor {
  import opened Base
  import opened Text

  const MAX_WINDOW: int := 30 * 24 * HOUR
  const MAX_MILLI: int := 253_402_300_799_999
  const MAX_MICRO: int := 253_402_300_799_999_999
  const MAX_LENGTH: nat := 200

  datatype Cursor = Cursor(iata: string, pathKey: string, since: int, until: int, heardAt: int, id: int)

  predicate IsHex(c: char) {
    '0' <= c <= '9' || 'a' <= c <= 'f' || 'A' <= c <= 'F'
  }

  function Lower(c: char): char {
    if 'A' <= c <= 'Z' then (c as int + 32) as char else c
  }

  predicate ValidKey(iata: string, key: string) {
    && |iata| == 3 && |key| == 32
    && (forall i :: 0 <= i < |iata| ==> 'A' <= iata[i] <= 'Z' || '0' <= iata[i] <= '9')
    && (forall i :: 0 <= i < |key| ==> IsHex(key[i]) && key[i] == Lower(key[i]))
  }

  predicate ValidWindow(since: int, until: int) {
    since >= 0 && until > since && until - since <= MAX_WINDOW
  }

  function UnixMilli(t: int): int {
    t / 1000
  }

  /** The fields of the printed form. */
  function Parts(c: Cursor): seq<string> {
    ["v1", c.iata, c.pathKey, FormatInt(UnixMilli(c.since)), FormatInt(UnixMilli(c.until)), FormatInt(c.heardAt),
     FormatInt(c.id)]
  }

  function Print(c: Cursor): string {
    Join(Parts(c), ':')
  }

  /** What a cursor the API hands out satisfies: a whole-millisecond window and a microsecond instant inside it. */
  predicate Valid(c: Cursor) {
    && ValidKey(c.iata, c.pathKey)
    && c.since % 1000 == 0 && c.until % 1000 == 0
    && ValidWindow(c.since, c.until) && UnixMilli(c.until) <= MAX_MILLI
    && c.since <= c.heardAt < c.until
    && 0 < c.id <= MAX_INT64
  }

  lemma {:induction false} DigitsPlain(n: nat)
    ensures ':' !in Digits(n)
  {
    DigitsParse(n);
    assert !IsDigit(':');
  }

  lemma JoinLength(parts: seq<string>)
    requires |parts| == 7
    ensures |Join(parts, ':')| == |parts[0]| + |parts[1]| + |parts[2]| + |parts[3]| + |parts[4]| + |parts[5]|
            + |parts[6]| + 6
  {
    var p := parts;
    assert p[1..][1..] == p[2..] && p[2..][1..] == p[3..] && p[3..][1..] == p[4..] && p[4..][1..] == p[5..]
        && p[5..][1..] == p[6..];
    assert Join(p[6..], ':') == p[6];
    assert Join(p[5..], ':') == p[5] + [':'] + Join(p[6..], ':');
    assert Join(p[4..], ':') == p[4] + [':'] + Join(p[5..], ':');
    assert Join(p[3..], ':') == p[3] + [':'] + Join(p[4..], ':');
    assert Join(p[2..], ':') == p[2] + [':'] + Join(p[3..], ':');
    assert Join(p[1..], ':') == p[1] + [':'] + Join(p[2..], ':');
  }

  lemma Powers()
    ensures Pow10(15) == 1_000_000_000_000_000 && Pow10(18) == 1_000_000_000_000_000_000
            && Pow10(19) == 10_000_000_000_000_000_000
  {
    assert Pow10(5) == 100_000;
    assert Pow10(10) == 10_000_000_000;
    assert Pow10(15) == 1_000_000_000_000_000;
  }

  /** A printed valid cursor splits back into its fields and never reaches the length limit. */
  lemma PrintedForm(c: Cursor)
    requires Valid(c)
    ensures Split(Print(c), ':') == Parts(c) && |Print(c)| <= MAX_LENGTH
  {
    var parts := Parts(c);
    forall i | 0 <= i < |parts| ensures ':' !in parts[i] {
      DigitsPlain(UnixMilli(c.since));
      DigitsPlain(UnixMilli(c.until));
      DigitsPlain(c.heardAt);
      DigitsPlain(c.id);
      KeyPlain(c.iata, c.pathKey);
    }
    SplitJoin(parts, ':');
    Powers();
    DigitsLength(UnixMilli(c.since), 15);
    DigitsLength(UnixMilli(c.until), 15);
    DigitsLength(c.heardAt, 18);
    DigitsLength(c.id, 19);
    JoinLength(parts);
  }

  lemma KeyPlain(iata: string, key: string)
    requires ValidKey(iata, key)
    ensures ':' !in iata && ':' !in key
  {
  }

  /** The decimal form the parser accepts: a non-negative number it would itself print that way. */
  predicate Canonical(s: string) {
    ParseInt(s).Some? && ParseInt(s).value >= 0 && FormatInt(ParseInt(s).value) == s
  }

  predicate WellFormed(p: seq<string>) {
    |p| == 7 && p[0] == "v1" && ValidKey(p[1], p[2]) && Canonical(p[3]) && Canonical(p[4]) && Canonical(p[5])
        && Canonical(p[6])
  }

  /** The cursor a list of fields stands for. */
  function Candidate(p: seq<string>): Cursor
    requires WellFormed(p)
  {
    Cursor(p[1], p[2], ParseInt(p[3]).value * 1000, ParseInt(p[4]).value * 1000, ParseInt(p[5]).value,
           ParseInt(p[6]).value)
  }

  function Parse(raw: string): Option<Cursor> {
    var p := Split(raw, ':');
    if |raw| <= MAX_LENGTH && WellFormed(p) && Valid(Candidate(p)) then Some(Candidate(p)) else None
  }

  /** Parse(Print(c)) = c for every valid cursor; the length limit never gets in the way. */
  lemma PrintThenParse(c: Cursor)
    requires Valid(c)
    ensures Parse(Print(c)) == Some(c)
  {
    PrintedForm(c);
    ParsePrinted(UnixMilli(c.since));
    ParsePrinted(UnixMilli(c.until));
    ParsePrinted(c.heardAt);
    ParsePrinted(c.id);
    assert Candidate(Parts(c)) == c;
  }

  /** Print(Parse(raw)) = raw for every accepted text, and what is accepted is valid. */
  lemma ParseThenPrint(raw: string)
    requires Parse(raw).Some?
    ensures Valid(Parse(raw).value) && Print(Parse(raw).value) == raw
  {
    var p := Split(raw, ':');
    JoinSplit(raw, ':');
    assert Parts(Candidate(p)) == p;
  }

  /** So parsing accepts exactly the texts a valid cursor prints. */
  lemma AcceptsExactlyPrints(raw: string)
    ensures Parse(raw).Some? <==> exists c :: Valid(c) && Print(c) == raw
  {
    if Parse(raw).Some? {
      ParseThenPrint(raw);
    }
    if c :| Valid(c) && Print(c) == raw {
      PrintThenParse(c);
    }
  }

  /** Exactly the cursors that survive the round trip are valid: sub-millisecond windows, for one, do not. */
  lemma RoundTripIffValid(c: Cursor)
    ensures Parse(Print(c)) == Some(c) <==> Valid(c)
  {
    if Valid(c) { PrintThenParse(c); }
    if Parse(Print(c)) == Some(c) { ParseThenPrint(Print(c)); }
  }

  /** A window that starts half a millisecond late, say: its cursor parses to another one. */
  const LATE: Cursor := Cursor("YOW", "00000000000000000000000000000000", 500, 10_000, 5_000, 7)

  lemma SubMillisecondWindowIsLost()
    ensures ValidKey(LATE.iata, LATE.pathKey) && ValidWindow(LATE.since, LATE.until)
            && LATE.since <= LATE.heardAt < LATE.until
    ensures Parse(Print(LATE)) == Some(LATE.(since := 0)) != Some(LATE)
  {
    assert Parts(LATE) == Parts(LATE.(since := 0));
    PrintThenParse(LATE.(since := 0));
  }

  /** The loop over the numeric fields. */
  method ParseNumbers(fields: seq<string>) returns (r: Option<seq<int>>)
    requires |fields| == 4
    ensures r.Some? <==> forall j :: 0 <= j < 4 ==> Canonical(fields[j])
    ensures r.Some? ==> |r.value| == 4 && forall j ::
            0 <= j < 4 ==> r.value[j] == ParseInt(fields[j]).value && 0 <= r.value[j] <= MAX_INT64
  {
    var values := new int[4](_ => 0);
    for i := 0 to 4
      invariant forall j :: 0 <= j < i ==> Canonical(fields[j]) && values[j] == ParseInt(fields[j]).value
    {
      var n := ParseInt(fields[i]);
      if n.None? || n.value < 0 || FormatInt(n.value) != fields[i] {
        return None;
      }
      values[i] := n.value;
    }
    r := Some(values[..]);
  }

  function FromNumbers(iata: string, key: string, values: seq<int>): Cursor
    requires |values| == 4
  {
    Cursor(iata, key, values[0] * 1000, values[1] * 1000, values[2], values[3])
  }

  /** The bounds come first, which keeps the conversions of the original in range. */
  method CheckBounds(iata: string, key: string, values: seq<int>) returns (r: Option<Cursor>)
    requires |values| == 4 && ValidKey(iata, key) && forall j :: 0 <= j < 4 ==> 0 <= values[j] <= MAX_INT64
    ensures r == if Valid(FromNumbers(iata, key, values)) then Some(FromNumbers(iata, key, values)) else None
  {
    var c := FromNumbers(iata, key, values);
    if values[0] > MAX_MILLI || values[1] > MAX_MILLI || values[2] > MAX_MICRO || values[3] <= 0 {
      return None;
    }
    if !ValidWindow(c.since, c.until) || c.heardAt < c.since || c.heardAt >= c.until {
      return None;
    }
    r := Some(c);
  }

  lemma WellFormedFields(p: seq<string>)
    requires |p| == 7 && p[0] == "v1" && ValidKey(p[1], p[2])
    ensures WellFormed(p) <==> forall j :: 0 <= j < 4 ==> Canonical(p[3..][j])
    ensures WellFormed(p) ==> forall values ::
            |values| == 4 && (forall j :: 0 <= j < 4 ==> values[j] == ParseInt(p[3..][j]).value) ==>
                                FromNumbers(p[1], p[2], values) == Candidate(p)
  {
    var q := p[3..];
    assert q[0] == p[3] && q[1] == p[4] && q[2] == p[5] && q[3] == p[6];
  }

  /** ParseRouteEvidenceCursor, field by field. */
  method ParseCursor(raw: string) returns (r: Option<Cursor>)
    ensures r == Parse(raw)
  {
    if |raw| > MAX_LENGTH {
      return None;
    }
    var p := Split(raw, ':');
    if |p| != 7 || p[0] != "v1" || !ValidKey(p[1], p[2]) {
      return None;
    }
    WellFormedFields(p);
    var numbers := ParseNumbers(p[3..]);
    if numbers.None? {
      return None;
    }
    r := CheckBounds(p[1], p[2], numbers.value);
  }
}
