/** What the application does around the handlers: the response filter
    that rewrites date values to ISO-8601 UTC strings (`normalizeDatesDeep`,
    `isDateKey`, `toIsoFromKstDatetimeString`) and the gate in front of the
    image upload endpoints (`validateUploadPath`, the multer `fileFilter`
    and the URL returned for a stored file). */
module App {
  import opened Common

  // ---------------------------------------------------------------------
  // isDateKey
  // ---------------------------------------------------------------------

  /** `isDateKey(key)`: the lower-cased key is one of the three timestamp
      column names or "datetime", or ends with "_at" or "at". */
  predicate IsDateKey(key: string)
  {
    var k := ToLower(key);
    k == "created_at" || k == "updated_at" || k == "deleted_at" ||
    EndsWith(k, "_at") || EndsWith(k, "at") || k == "datetime"
  }

  /** The six tests collapse to two: the lower-cased key ends with "at" or
      is "datetime". */
  lemma IsDateKeyCollapses(key: string)
    ensures IsDateKey(key) <==> EndsWith(ToLower(key), "at") || ToLower(key) == "datetime"
  {
    var k := ToLower(key);
    if EndsWith(k, "_at") {
      assert k[|k| - 2..] == k[|k| - 3..][1..];
    }
  }

  // ---------------------------------------------------------------------
  // Calendar
  // ---------------------------------------------------------------------

  /** The calendar fields of a date-time, as written in a DATETIME string or
      held by a `Date` object (in UTC). */
  datatype DateTime = DateTime(year: int, month: int, day: int, hour: int, minute: int, second: int)

  predicate IsLeap(y: int)
  {
    (y % 4 == 0 && y % 100 != 0) || y % 400 == 0
  }

  function DaysIn(y: int, m: int): int
  {
    if m == 2 then (if IsLeap(y) then 29 else 28)
    else if m == 4 || m == 6 || m == 9 || m == 11 then 30
    else 31
  }

  /** A real calendar date-time with a four-digit year, the only values the
      model converts. */
  predicate Valid(d: DateTime)
  {
    0 <= d.year <= 9999 && 1 <= d.month <= 12 && 1 <= d.day <= DaysIn(d.year, d.month) &&
    0 <= d.hour < 24 && 0 <= d.minute < 60 && 0 <= d.second < 60
  }

  function DaysInYear(y: int): int
  {
    if IsLeap(y) then 366 else 365
  }

  /** Days from 0000-01-01 to the first of January of `y`. */
  function DaysBeforeYear(y: nat): int
  {
    if y == 0 then 0 else DaysBeforeYear(y - 1) + DaysInYear(y - 1)
  }

  /** Days from the first of January of `y` to the first of month `m`. */
  function DaysBeforeMonth(y: int, m: nat): int
  {
    if m <= 1 then 0 else DaysBeforeMonth(y, m - 1) + DaysIn(y, m - 1)
  }

  /** The instant a valid date-time denotes, in seconds from
      0000-01-01 00:00:00 of the same clock. */
  function Instant(d: DateTime): int
    requires d.year >= 0 && d.month >= 0
  {
    (DaysBeforeYear(d.year) + DaysBeforeMonth(d.year, d.month) + d.day - 1) * 86400 +
    d.hour * 3600 + d.minute * 60 + d.second
  }

  /** The calendar day before (y, m, d). */
  function PrevDay(d: DateTime): DateTime
  {
    if d.day > 1 then d.(day := d.day - 1)
    else if d.month > 1 then d.(month := d.month - 1, day := DaysIn(d.year, d.month - 1))
    else d.(year := d.year - 1, month := 12, day := 31)
  }

  /** The calendar day after (y, m, d). */
  function NextDay(d: DateTime): DateTime
  {
    if d.day < DaysIn(d.year, d.month) then d.(day := d.day + 1)
    else if d.month < 12 then d.(month := d.month + 1, day := 1)
    else d.(year := d.year + 1, month := 1, day := 1)
  }

  /** A wall-clock time in Korea (UTC+9, no daylight saving) read as UTC:
      nine hours earlier, the day before when the hour is below 9. */
  function KstToUtc(d: DateTime): DateTime
  {
    if d.hour >= 9 then d.(hour := d.hour - 9) else PrevDay(d).(hour := d.hour + 15)
  }

  /** The other direction: nine hours later. */
  function UtcToKst(d: DateTime): DateTime
  {
    if d.hour < 15 then d.(hour := d.hour + 9) else NextDay(d).(hour := d.hour - 15)
  }

  lemma DaysBeforeMonthFull(y: int)
    ensures DaysBeforeMonth(y, 12) + 31 == DaysInYear(y)
  {
    assert DaysBeforeMonth(y, 2) == 31;
    assert DaysBeforeMonth(y, 3) == 31 + DaysIn(y, 2);
    assert DaysBeforeMonth(y, 4) == 62 + DaysIn(y, 2);
    assert DaysBeforeMonth(y, 5) == 92 + DaysIn(y, 2);
    assert DaysBeforeMonth(y, 6) == 123 + DaysIn(y, 2);
    assert DaysBeforeMonth(y, 7) == 153 + DaysIn(y, 2);
    assert DaysBeforeMonth(y, 8) == 184 + DaysIn(y, 2);
    assert DaysBeforeMonth(y, 9) == 215 + DaysIn(y, 2);
    assert DaysBeforeMonth(y, 10) == 245 + DaysIn(y, 2);
    assert DaysBeforeMonth(y, 11) == 276 + DaysIn(y, 2);
  }

  /** The day before a valid date is one day earlier on the calendar. */
  lemma PrevDayInstant(d: DateTime)
    requires Valid(d) && (d.year >= 1 || d.month > 1 || d.day > 1)
    ensures var p := PrevDay(d);
            Valid(p) && Instant(p) == Instant(d) - 86400
  {
    if d.day == 1 && d.month == 1 {
      DaysBeforeMonthFull(d.year - 1);
    }
  }

  /** Read as UTC, a Korean wall-clock time denotes the instant nine hours
      earlier, unless that falls before year 0. */
  lemma KstToUtcInstant(d: DateTime)
    requires Valid(d) && KstToUtc(d).year >= 0
    ensures Valid(KstToUtc(d))
    ensures Instant(KstToUtc(d)) == Instant(d) - 9 * 3600
  {
    if d.hour < 9 {
      PrevDayInstant(d);
    }
  }

  /** Moving nine hours back and then nine hours forward returns to the
      same wall-clock reading. */
  lemma KstRoundTrip(d: DateTime)
    requires Valid(d) && KstToUtc(d).year >= 0
    ensures UtcToKst(KstToUtc(d)) == d
  {
  }

  // ---------------------------------------------------------------------
  // Digits, formatting and the DATETIME pattern
  // ---------------------------------------------------------------------

  /** `\d` of a JavaScript regular expression: an ASCII digit. */
  predicate IsDigit(c: char)
  {
    '0' <= c <= '9'
  }

  predicate AllDigits(s: string)
  {
    forall k :: 0 <= k < |s| ==> IsDigit(s[k])
  }

  function Digit(k: int): char
    requires 0 <= k < 10
  {
    ('0' as int + k) as char
  }

  /** The value of a string of decimal digits. */
  function NumberOf(s: string): int
  {
    if s == [] then 0 else NumberOf(s[..|s| - 1]) * 10 + (s[|s| - 1] as int - '0' as int)
  }

  function Pow10(w: nat): nat
  {
    if w == 0 then 1 else 10 * Pow10(w - 1)
  }

  /** `n` written with exactly `w` digits, zero-padded on the left. */
  function Pad(n: nat, w: nat): (r: string)
    ensures |r| == w && AllDigits(r)
  {
    if w == 0 then [] else Pad(n / 10, w - 1) + [Digit(n % 10)]
  }

  /** Reading back a padded number gives the number. */
  lemma {:induction false} NumberOfPad(n: nat, w: nat)
    requires n < Pow10(w)
    ensures NumberOf(Pad(n, w)) == n
  {
    if w > 0 {
      var p := Pad(n / 10, w - 1);
      NumberOfPad(n / 10, w - 1);
      assert (p + [Digit(n % 10)])[..|p|] == p;
    }
  }

  /** `/^\d{4}-\d{2}-\d{2}[ T]\d{2}:\d{2}:\d{2}/`: the string starts with a
      date, a space or `T`, and a time.  Anything may follow. */
  predicate MatchesKstPattern(s: string)
  {
    |s| >= 19 &&
    AllDigits(s[0..4]) && s[4] == '-' && AllDigits(s[5..7]) && s[7] == '-' && AllDigits(s[8..10]) &&
    (s[10] == ' ' || s[10] == 'T') &&
    AllDigits(s[11..13]) && s[13] == ':' && AllDigits(s[14..16]) && s[16] == ':' && AllDigits(s[17..19])
  }

  /** The calendar fields written in the first 19 characters. */
  function FieldsOf(s: string): DateTime
    requires |s| >= 19
  {
    DateTime(NumberOf(s[0..4]), NumberOf(s[5..7]), NumberOf(s[8..10]),
             NumberOf(s[11..13]), NumberOf(s[14..16]), NumberOf(s[17..19]))
  }

  /** `Date.prototype.toISOString` of a valid instant with a four-digit
      year: `YYYY-MM-DDTHH:mm:ss.sssZ`, the milliseconds being 000 here. */
  function FormatIso(d: DateTime): string
    requires Valid(d)
  {
    Pad(d.year, 4) + "-" + Pad(d.month, 2) + "-" + Pad(d.day, 2) + "T" +
    Pad(d.hour, 2) + ":" + Pad(d.minute, 2) + ":" + Pad(d.second, 2) + ".000Z"
  }

  /** An ISO string the filter produces matches the DATETIME pattern again
      and its fields read back as the instant it was made from. */
  lemma FormatIsoReadsBack(d: DateTime)
    requires Valid(d)
    ensures var r := FormatIso(d);
            && |r| == 24 && MatchesKstPattern(r) && r[10] == 'T' && r[19..] == ".000Z"
            && FieldsOf(r) == d
  {
    var r := FormatIso(d);
    assert r[0..4] == Pad(d.year, 4);
    assert r[5..7] == Pad(d.month, 2);
    assert r[8..10] == Pad(d.day, 2);
    assert r[11..13] == Pad(d.hour, 2);
    assert r[14..16] == Pad(d.minute, 2);
    assert r[17..19] == Pad(d.second, 2);
    NumberOfPad(d.year, 4);
    NumberOfPad(d.month, 2);
    NumberOfPad(d.day, 2);
    NumberOfPad(d.hour, 2);
    NumberOfPad(d.minute, 2);
    NumberOfPad(d.second, 2);
  }

  /** `toIsoFromKstDatetimeString(s)`: a string that does not start with the
      DATETIME pattern is returned as it is; an exact 19-character DATETIME
      holding a real date-time is read as Korean time and written as the
      UTC instant.  `None` stands for every other matching string (a
      fraction or suffix after the seconds, impossible calendar fields, or a
      result before year 0), whose fate is decided by the JavaScript `Date`
      parser. */
  function ToIsoFromKst(s: string): (r: Option<string>)
    ensures !MatchesKstPattern(s) ==> r == Some(s)
    ensures r.Some? && MatchesKstPattern(s) ==> |r.value| == 24
  {
    if !MatchesKstPattern(s) then Some(s)
    else
      var d := FieldsOf(s);
      if |s| == 19 && Valid(d) && KstToUtc(d).year >= 0 then Some(FormatIso(KstToUtc(d))) else None
  }

  /** A converted DATETIME denotes the same instant nine hours earlier, read
      back from its own text; the separator (space or `T`) makes no
      difference. */
  lemma ToIsoShiftsNineHours(s: string)
    requires MatchesKstPattern(s) && |s| == 19
    requires Valid(FieldsOf(s)) && KstToUtc(FieldsOf(s)).year >= 0
    ensures var r := ToIsoFromKst(s);
            && r.Some? && r.value != s
            && Valid(FieldsOf(r.value))
            && Instant(FieldsOf(r.value)) == Instant(FieldsOf(s)) - 9 * 3600
            && UtcToKst(FieldsOf(r.value)) == FieldsOf(s)
            && ToIsoFromKst(s[10 := if s[10] == ' ' then 'T' else ' ']) == r
  {
    var d := FieldsOf(s);
    KstToUtcInstant(d);
    KstRoundTrip(d);
    FormatIsoReadsBack(KstToUtc(d));
    var s' := s[10 := if s[10] == ' ' then 'T' else ' '];
    assert s'[0..4] == s[0..4] && s'[5..7] == s[5..7] && s'[8..10] == s[8..10];
    assert s'[11..13] == s[11..13] && s'[14..16] == s[14..16] && s'[17..19] == s[17..19];
  }

  // ---------------------------------------------------------------------
  // normalizeDatesDeep
  // ---------------------------------------------------------------------

  /** A response payload: `Null` stands for both `null` and `undefined`,
      `Date` for a `Date` object (its UTC calendar fields), `Obj` for a plain
      object as the list of its entries in `Object.entries` order. */
  datatype Json =
    | Null
    | Bool(b: bool)
    | Num(n: int)
    | Str(s: string)
    | Date(t: DateTime)
    | Arr(items: seq<Json>)
    | Obj(entries: seq<Entry>)

  datatype Entry = Entry(key: string, value: Json)

  /** `date.toISOString()`; `None` for a `Date` the model does not format
      (an invalid date, or a year outside 0..9999). */
  function DateToIso(t: DateTime): Option<string>
  {
    if Valid(t) then Some(FormatIso(t)) else None
  }

  /** `normalizeDatesDeep(data)`.  `None` when some conversion on the way is
      outside the model (see `ToIsoFromKst` and `DateToIso`). */
  function Normalize(j: Json): Option<Json>
    decreases j, 1
  {
    match j
    case Null => Some(Null)
    case Date(t) => if DateToIso(t).Some? then Some(Str(DateToIso(t).value)) else None
    case Arr(items) =>
      var r := NormalizeItems(items);
      if r.Some? then Some(Arr(r.value)) else None
    case Obj(entries) =>
      var r := NormalizeEntries(entries);
      if r.Some? then Some(Obj(r.value)) else None
    case _ => Some(j)
  }

  /** `data.map(normalizeDatesDeep)`. */
  function NormalizeItems(items: seq<Json>): Option<seq<Json>>
    decreases items, 0
  {
    if items == [] then Some([])
    else
      var head := Normalize(items[0]);
      var tail := NormalizeItems(items[1..]);
      if head.Some? && tail.Some? then Some([head.value] + tail.value) else None
  }

  /** One pass of the `for` loop over `Object.entries(data)`: a `Date` is
      formatted, a string under a date key is converted, any other value is
      normalised recursively. */
  function NormalizeValue(key: string, value: Json): Option<Json>
    decreases value, 2
  {
    if value.Date? then
      (if DateToIso(value.t).Some? then Some(Str(DateToIso(value.t).value)) else None)
    else if value.Str? && IsDateKey(key) then
      (if ToIsoFromKst(value.s).Some? then Some(Str(ToIsoFromKst(value.s).value)) else None)
    else Normalize(value)
  }

  function NormalizeEntries(entries: seq<Entry>): Option<seq<Entry>>
    decreases entries, 0
  {
    if entries == [] then Some([])
    else
      var e := entries[0];
      var v := NormalizeValue(e.key, e.value);
      var tail := NormalizeEntries(entries[1..]);
      if v.Some? && tail.Some? then Some([Entry(e.key, v.value)] + tail.value) else None
  }

  /** The string under a date key after `toIsoFromKst`. */
  predicate ConvertedDateString(s: string, r: Json)
  {
    ToIsoFromKst(s).Some? && r == Str(ToIsoFromKst(s).value)
  }

  /** The tree a normalised payload keeps: the same arrays with the same
      lengths, the same objects with the same keys in the same order, and
      the same leaves, except that a `Date` becomes its `toISOString` text
      and a string under a date key becomes its `toIsoFromKst` conversion. */
  predicate SameShape(j: Json, r: Json)
    decreases j
  {
    match j
    case Date(t) => DateToIso(t).Some? && r == Str(DateToIso(t).value)
    case Arr(items) =>
      r.Arr? && |r.items| == |items| &&
      forall i :: 0 <= i < |items| ==> SameShape(items[i], r.items[i])
    case Obj(es) =>
      r.Obj? && |r.entries| == |es| &&
      forall i :: 0 <= i < |es| ==>
        r.entries[i].key == es[i].key &&
        if es[i].value.Str? && IsDateKey(es[i].key) then ConvertedDateString(es[i].value.s, r.entries[i].value)
        else SameShape(es[i].value, r.entries[i].value)
    case _ => r == j
  }

  /** `normalizeDatesDeep` keeps the shape of the payload: null and
      primitives come back unchanged, arrays element by element, objects
      key by key, and a string is only ever rewritten under a date key. */
  lemma {:induction false} NormalizeShape(j: Json)
    requires Normalize(j).Some?
    ensures SameShape(j, Normalize(j).value)
    decreases j, 1
  {
    match j
    case Arr(items) => NormalizeItemsShape(items);
    case Obj(es) => NormalizeEntriesShape(es);
    case _ =>
  }

  lemma {:induction false} NormalizeItemsShape(items: seq<Json>)
    requires NormalizeItems(items).Some?
    ensures |NormalizeItems(items).value| == |items|
    ensures forall i :: 0 <= i < |items| ==> SameShape(items[i], NormalizeItems(items).value[i])
    decreases items, 0
  {
    if items != [] {
      NormalizeShape(items[0]);
      NormalizeItemsShape(items[1..]);
      var r := NormalizeItems(items).value;
      forall i | 1 <= i < |items| ensures SameShape(items[i], r[i]) {
        assert items[i] == items[1..][i - 1];
      }
    }
  }

  lemma {:induction false} NormalizeEntriesShape(es: seq<Entry>)
    requires NormalizeEntries(es).Some?
    ensures var r := NormalizeEntries(es).value;
            && |r| == |es|
            && forall i :: 0 <= i < |es| ==>
                 r[i].key == es[i].key &&
                 if es[i].value.Str? && IsDateKey(es[i].key) then ConvertedDateString(es[i].value.s, r[i].value)
                 else SameShape(es[i].value, r[i].value)
    decreases es, 0
  {
    if es != [] {
      var e := es[0];
      if !e.value.Date? && !(e.value.Str? && IsDateKey(e.key)) {
        NormalizeShape(e.value);
      }
      NormalizeEntriesShape(es[1..]);
      var r := NormalizeEntries(es).value;
      forall i | 1 <= i < |es|
        ensures r[i].key == es[i].key &&
                if es[i].value.Str? && IsDateKey(es[i].key) then ConvertedDateString(es[i].value.s, r[i].value)
                else SameShape(es[i].value, r[i].value)
      {
        assert es[i] == es[1..][i - 1];
      }
    }
  }

  /** A payload with no `Date` and no string of DATETIME form under a date
      key. */
  predicate DateFree(j: Json)
    decreases j
  {
    match j
    case Date(_) => false
    case Arr(items) => forall i :: 0 <= i < |items| ==> DateFree(items[i])
    case Obj(es) =>
      forall i :: 0 <= i < |es| ==>
        if es[i].value.Str? && IsDateKey(es[i].key) then !MatchesKstPattern(es[i].value.s)
        else DateFree(es[i].value)
    case _ => true
  }

  /** Such a payload passes through the filter unchanged. */
  lemma {:induction false} DateFreeUnchanged(j: Json)
    requires DateFree(j)
    ensures Normalize(j) == Some(j)
    decreases j, 1
  {
    match j
    case Arr(items) => DateFreeItemsUnchanged(items);
    case Obj(es) => DateFreeEntriesUnchanged(es);
    case _ =>
  }

  lemma {:induction false} DateFreeItemsUnchanged(items: seq<Json>)
    requires forall i :: 0 <= i < |items| ==> DateFree(items[i])
    ensures NormalizeItems(items) == Some(items)
    decreases items, 0
  {
    if items != [] {
      DateFreeUnchanged(items[0]);
      DateFreeItemsUnchanged(items[1..]);
      assert items == [items[0]] + items[1..];
    }
  }

  lemma {:induction false} DateFreeEntriesUnchanged(es: seq<Entry>)
    requires forall i :: 0 <= i < |es| ==>
               if es[i].value.Str? && IsDateKey(es[i].key) then !MatchesKstPattern(es[i].value.s)
               else DateFree(es[i].value)
    ensures NormalizeEntries(es) == Some(es)
    decreases es, 0
  {
    if es != [] {
      var e := es[0];
      if !(e.value.Str? && IsDateKey(e.key)) {
        DateFreeUnchanged(e.value);
      }
      DateFreeEntriesUnchanged(es[1..]);
      assert es == [Entry(e.key, e.value)] + es[1..];
    }
  }

  // ---------------------------------------------------------------------
  // Upload gating
  // ---------------------------------------------------------------------

  /** `ALLOWED_EXT`. */
  const AllowedExt: set<string> := {".jpg", ".jpeg", ".png", ".webp", ".gif", ".heic", ".heif"}

  /** `ALLOWED`: the folders an upload may go to. */
  const AllowedFolders: seq<string> := ["community", "goods", "profile", "event", "notice", "nanum"]

  /** The last index of `c` in `s`, or -1. */
  function LastIndexOf(s: string, c: char): (r: int)
    ensures -1 <= r < |s|
    ensures r >= 0 ==> s[r] == c
    ensures forall k :: r < k < |s| ==> s[k] != c
  {
    if s == [] then -1
    else if s[|s| - 1] == c then |s| - 1
    else LastIndexOf(s[..|s| - 1], c)
  }

  function StripTrailingSlashes(p: string): (r: string)
    ensures |r| <= |p| && r == p[..|r|]
    ensures r == [] || r[|r| - 1] != '/'
  {
    if p != [] && p[|p| - 1] == '/' then StripTrailingSlashes(p[..|p| - 1]) else p
  }

  /** The last path segment, trailing separators ignored. */
  function BaseName(p: string): string
  {
    var q := StripTrailingSlashes(p);
    q[LastIndexOf(q, '/') + 1..]
  }

  /** `path.extname` of POSIX Node: from the last `.` of the last segment to
      its end; empty when the segment has no `.`, starts with its only
      leading `.` run ending at the last dot at position 0, or is `..`. */
  function ExtName(p: string): (r: string)
    ensures r == [] || (r[0] == '.' && forall k :: 1 <= k < |r| ==> r[k] != '.' && r[k] != '/')
    ensures EndsWith(StripTrailingSlashes(p), r)
  {
    var b := BaseName(p);
    var d := LastIndexOf(b, '.');
    if d <= 0 || b == ".." then "" else b[d..]
  }

  /** The `fileFilter` of multer: the lower-cased MIME type (empty when
      missing) starts with `image/` and the lower-cased extension of the
      client's file name is one of `ALLOWED_EXT`. */
  predicate FileAccepted(originalName: string, mimetype: Option<string>)
  {
    var mime := if mimetype.Some? then mimetype.value else "";
    StartsWith(ToLower(mime), "image/") && ToLower(ExtName(originalName)) in AllowedExt
  }

  /** A dot followed by at least three lower-case letters. */
  predicate DotLetters(e: string)
  {
    |e| >= 4 && e[0] == '.' && forall k :: 1 <= k < |e| ==> 'a' <= e[k] <= 'z'
  }

  /** Every allowed extension is a dot followed by lower-case letters. */
  lemma AllowedExtShape(e: string)
    requires e in AllowedExt
    ensures DotLetters(e)
  {
  }

  /** Lower-casing commutes with taking a suffix. */
  lemma ToLowerSuffix(s: string, t: string)
    requires EndsWith(s, t)
    ensures EndsWith(ToLower(s), ToLower(t))
  {
    var ls := ToLower(s);
    assert ls[|s| - |t|..] == ToLower(t) by {
      forall k | 0 <= k < |t| ensures ls[|s| - |t|..][k] == ToLower(t)[k] {
        assert s[|s| - |t| + k] == t[k];
      }
    }
  }

  /** An accepted file's name, lower-cased and without trailing `/`, ends
      with one of the allowed extensions, and its MIME type is an image
      type. */
  lemma AcceptedNameEndsWithAllowedExt(originalName: string, mimetype: Option<string>)
    requires FileAccepted(originalName, mimetype)
    ensures ToLower(ExtName(originalName)) in AllowedExt
    ensures EndsWith(ToLower(StripTrailingSlashes(originalName)), ToLower(ExtName(originalName)))
    ensures mimetype.Some? && |mimetype.value| >= 6
  {
    var mime := if mimetype.Some? then mimetype.value else "";
    assert StartsWith(ToLower(mime), "image/");
    assert |ToLower(mime)| == |mime|;
    ToLowerSuffix(StripTrailingSlashes(originalName), ExtName(originalName));
  }

  lemma LowerCharOfLetter(c: char, l: char)
    requires l == LowerChar(c) && 'a' <= l <= 'z'
    ensures c != '.' && c != '/'
  {
  }

  /** A string that lower-cases to an allowed extension is a dot followed by
      letters. */
  lemma AllowedExtInAnyCase(ext: string, lo: string)
    requires |lo| == |ext| && forall k :: 0 <= k < |ext| ==> lo[k] == LowerChar(ext[k])
    requires DotLetters(lo)
    ensures |ext| >= 4 && ext[0] == '.' && forall k :: 1 <= k < |ext| ==> ext[k] != '.' && ext[k] != '/'
  {
    forall k | 1 <= k < |ext| ensures ext[k] != '.' && ext[k] != '/' {
      LowerCharOfLetter(ext[k], lo[k]);
    }
  }

  /** The extension of `stem + ext` is `ext` when the stem is a non-empty
      name without `/` and `ext` is a dot followed by other characters. */
  lemma ExtNameOfStemExt(stem: string, ext: string)
    requires stem != [] && forall k :: 0 <= k < |stem| ==> stem[k] != '/'
    requires |ext| >= 2 && ext[0] == '.' && forall k :: 1 <= k < |ext| ==> ext[k] != '.' && ext[k] != '/'
    ensures ExtName(stem + ext) == ext
  {
    var p := stem + ext;
    assert forall k :: 0 <= k < |p| ==> p[k] != '/';
    assert StripTrailingSlashes(p) == p;
    assert LastIndexOf(p, '/') == -1;
    assert BaseName(p) == p;
    assert p[|stem|] == '.';
    assert forall k :: |stem| < k < |p| ==> p[k] != '.';
    assert LastIndexOf(p, '.') == |stem|;
    assert p[|stem|..] == ext;
  }

  /** A file name made of a stem without `/` and one of the allowed
      extensions, in any letter case, passes the filter with an image MIME
      type; a missing MIME type never passes. */
  lemma StemAndExtAccepted(stem: string, ext: string, mime: string)
    requires stem != [] && forall k :: 0 <= k < |stem| ==> stem[k] != '/'
    requires ToLower(ext) in AllowedExt
    requires StartsWith(ToLower(mime), "image/")
    ensures FileAccepted(stem + ext, Some(mime))
    ensures !FileAccepted(stem + ext, None)
  {
    AllowedExtShape(ToLower(ext));
    AllowedExtInAnyCase(ext, ToLower(ext));
    ExtNameOfStemExt(stem, ext);
  }

  /** `validateUploadPath`: only the six folders pass. */
  predicate FolderAllowed(folder: string)
  {
    folder in AllowedFolders
  }

  /** `/uploads/${folder}/${savedName}`. */
  function UploadUrl(folder: string, savedName: string): string
  {
    "/uploads/" + folder + "/" + savedName
  }

  /** Splits a URL of that form back into folder and file name, at the
      first `/` after the prefix. */
  function ParseUploadUrl(u: string): Option<(string, string)>
  {
    if !StartsWith(u, "/uploads/") then None
    else
      var rest := u[9..];
      var i := FirstIndexOf(rest, '/');
      if i < 0 then None else Some((rest[..i], rest[i + 1..]))
  }

  function FirstIndexOf(s: string, c: char): (r: int)
    ensures -1 <= r < |s|
    ensures r >= 0 ==> s[r] == c
    ensures forall k :: 0 <= k < |s| && (r < 0 || k < r) ==> s[k] != c
  {
    if s == [] then -1
    else if s[0] == c then 0
    else var r := FirstIndexOf(s[1..], c); if r < 0 then -1 else r + 1
  }

  /** Every allowed folder is a single path segment, so the URL of a stored
      file names its folder and file again. */
  lemma UploadUrlRoundTrip(folder: string, savedName: string)
    requires FolderAllowed(folder)
    ensures ParseUploadUrl(UploadUrl(folder, savedName)) == Some((folder, savedName))
  {
    var u := UploadUrl(folder, savedName);
    assert u[..9] == "/uploads/";
    var rest := u[9..];
    assert rest == folder + "/" + savedName;
    assert forall k :: 0 <= k < |folder| ==> folder[k] != '/';
    assert FirstIndexOf(rest, '/') == |folder| by {
      assert rest[|folder|] == '/';
      assert forall k :: 0 <= k < |folder| ==> rest[k] == folder[k];
    }
    assert rest[..|folder|] == folder;
    assert rest[|folder| + 1..] == savedName;
  }

  /** A file as multer hands it to the handler: the client's name and MIME
      type and the name it was stored under (time and random based, taken
      as given). */
  datatype UploadedFile = UploadedFile(originalName: string, mimetype: Option<string>, savedName: string)

  /** An entry of an upload response. */
  datatype Stored = Stored(savedName: string, url: string)

  predicate AllAccepted(files: seq<UploadedFile>)
  {
    forall i :: 0 <= i < |files| ==> FileAccepted(files[i].originalName, files[i].mimetype)
  }

  /** POST /api/upload/single/:url with the files of field `image`: 400 for
      a folder outside `ALLOWED` and when no file came; a rejected file or a
      second file is an error that the error middleware answers with 500. */
  function UploadSingle(folder: string, files: seq<UploadedFile>): (r: (int, Option<Stored>))
    ensures r.0 == OK <==> FolderAllowed(folder) && |files| == 1 && AllAccepted(files)
    ensures r.0 == BAD_REQUEST <==> !FolderAllowed(folder) || files == []
    ensures r.1.Some? <==> r.0 == OK
    ensures r.0 == OK ==>
              r.1.value.savedName == files[0].savedName &&
              ParseUploadUrl(r.1.value.url) == Some((folder, files[0].savedName))
  {
    if !FolderAllowed(folder) then (BAD_REQUEST, None)
    else if |files| > 1 || !AllAccepted(files) then (SERVER_ERROR, None)
    else if files == [] then (BAD_REQUEST, None)
    else
      UploadUrlRoundTrip(folder, files[0].savedName);
      (OK, Some(Stored(files[0].savedName, UploadUrl(folder, files[0].savedName))))
  }

  /** POST /api/upload/multi/:url with up to 11 files in field `images`. */
  function UploadMulti(folder: string, files: seq<UploadedFile>): (r: (int, seq<Stored>))
    ensures r.0 == OK <==> FolderAllowed(folder) && 1 <= |files| <= 11 && AllAccepted(files)
    ensures r.0 == BAD_REQUEST <==> !FolderAllowed(folder) || files == []
    ensures r.0 != OK ==> r.1 == []
    ensures r.0 == OK ==>
              |r.1| == |files| &&
              forall i :: 0 <= i < |files| ==>
                r.1[i].savedName == files[i].savedName &&
                ParseUploadUrl(r.1[i].url) == Some((folder, files[i].savedName))
  {
    if !FolderAllowed(folder) then (BAD_REQUEST, [])
    else if |files| > 11 || !AllAccepted(files) then (SERVER_ERROR, [])
    else if files == [] then (BAD_REQUEST, [])
    else (OK, StoredList(folder, files))
  }

  /** `req.files.map(f => ({ savedName, url }))`. */
  function StoredList(folder: string, files: seq<UploadedFile>): (r: seq<Stored>)
    requires FolderAllowed(folder)
    ensures |r| == |files|
    ensures forall i :: 0 <= i < |files| ==>
              r[i].savedName == files[i].savedName &&
              ParseUploadUrl(r[i].url) == Some((folder, files[i].savedName))
  {
    if files == [] then []
    else
      UploadUrlRoundTrip(folder, files[0].savedName);
      [Stored(files[0].savedName, UploadUrl(folder, files[0].savedName))] + StoredList(folder, files[1..])
  }
}
