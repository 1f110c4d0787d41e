/**
 Names of archived consoles: <utc-timestamp>-<id>-<digits>. A name says all three parts
 unambiguously, although ids may contain '-' and digits, and byte order of names is age order.
 Also the truncation of oversized consoles.
 */
module ConsoleArchive {
  import opened Common
  import opened IPv4

  // ---- ids ----------------------------------------------------------------------------------

  predicate IdChar(c: char) {
    'a' <= c <= 'z' || 'A' <= c <= 'Z' || '0' <= c <= '9' || c == '.' || c == '_' || c == '-'
  }

  predicate IdText(id: string) {
    1 <= |id| <= 64 && forall i :: 0 <= i < |id| ==> IdChar(id[i])
  }

  predicate ValidId(id: string) {
    id != "." && id != ".." && IdText(id)
  }

  // ---- time stamps ----------------------------------------------------------------------------

  datatype Time = Time(year: nat, month: nat, day: nat, hour: nat, minute: nat, second: nat)

  predicate Leap(year: nat) {
    year % 4 == 0 && (year % 100 != 0 || year % 400 == 0)
  }

  function DaysIn(month: nat, year: nat): nat {
    if month == 2 then (if Leap(year) then 29 else 28)
    else if month in {4, 6, 9, 11} then 30
    else 31
  }

  predicate ValidTime(t: Time) {
    t.year < 10000 && 1 <= t.month <= 12 && 1 <= t.day <= DaysIn(t.month, t.year) &&
    t.hour < 24 && t.minute < 60 && t.second < 60
  }

  /** Decimal with leading zeros to a fixed width. */
  function Pad(n: nat, width: nat): (s: string)
    ensures |s| == width && AllDigits(s)
  {
    if width == 0 then "" else Pad(n / 10, width - 1) + [Digit(n % 10)]
  }

  function Power10(n: nat): nat {
    if n == 0 then 1 else 10 * Power10(n - 1)
  }

  lemma {:induction false} PadValue(n: nat, width: nat)
    requires n < Power10(width)
    ensures DecimalValue(Pad(n, width)) == n
  {
    if width == 0 {
    } else {
      PadValue(n / 10, width - 1);
      var p := Pad(n / 10, width - 1);
      assert (p + [Digit(n % 10)])[..width - 1] == p;
      DigitExact(Digit(n % 10), n % 10);
    }
  }

  lemma {:induction false} PadUnique(s: string)
    requires AllDigits(s)
    ensures DecimalValue(s) < Power10(|s|) && Pad(DecimalValue(s), |s|) == s
  {
    if s == "" {
    } else {
      var n := |s| - 1;
      PadUnique(s[..n]);
      var x, d := DecimalValue(s[..n]), DigitValue(s[n]);
      assert DecimalValue(s) == 10 * x + d;
      assert Power10(|s|) == 10 * Power10(n);
      PadSnoc(x, d, n);
      DigitExact(s[n], d);
      hide *;
      assert s == s[..n] + [s[n]];
    }
  }

  lemma PadSnoc(x: nat, d: nat, width: nat)
    requires d < 10
    ensures Pad(10 * x + d, width + 1) == Pad(x, width) + [Digit(d)]
  {
  }

  /** The format 20060102T150405Z. */
  function Stamp(t: Time): (s: string)
    ensures |s| == 16
  {
    Pad(t.year, 4) + Pad(t.month, 2) + Pad(t.day, 2) + "T" + Pad(t.hour, 2) + Pad(t.minute, 2) + Pad(t.second, 2) + "Z"
  }

  /** Eight digits, T, six digits, Z. */
  predicate StampShape(s: string) {
    |s| == 16 && AllDigits(s[..8]) && s[8] == 'T' && AllDigits(s[9..15]) && s[15] == 'Z'
  }

  lemma SliceDigits(s: string, a: nat, b: nat, c: nat, d: nat)
    requires a <= c <= d <= b <= |s| && AllDigits(s[a..b])
    ensures AllDigits(s[c..d])
  {
    forall i | 0 <= i < d - c ensures IsDigit(s[c..d][i]) {
      assert s[c..d][i] == s[a..b][c - a + i];
    }
  }

  function Fields(s: string): Time
    requires StampShape(s)
  {
    assert s[..8] == s[0..8] && s[..4] == s[0..4];
    SliceDigits(s, 0, 8, 0, 4);
    SliceDigits(s, 0, 8, 4, 6);
    SliceDigits(s, 0, 8, 6, 8);
    SliceDigits(s, 9, 15, 9, 11);
    SliceDigits(s, 9, 15, 11, 13);
    SliceDigits(s, 9, 15, 13, 15);
    Time(DecimalValue(s[..4]), DecimalValue(s[4..6]), DecimalValue(s[6..8]),
         DecimalValue(s[9..11]), DecimalValue(s[11..13]), DecimalValue(s[13..15]))
  }

  function ParseStamp(s: string): Option<Time> {
    if StampShape(s) && ValidTime(Fields(s)) then Some(Fields(s)) else None
  }

  lemma StampSlices(t: Time)
    ensures var s := Stamp(t);
            && s[..4] == Pad(t.year, 4) && s[4..6] == Pad(t.month, 2) && s[6..8] == Pad(t.day, 2) && s[8] == 'T'
            && s[9..11] == Pad(t.hour, 2) && s[11..13] == Pad(t.minute, 2) && s[13..15] == Pad(t.second, 2)
            && s[15] == 'Z'
  {
  }

  lemma SlicesAre(s: string)
    requires |s| == 16
    ensures s == s[..4] + s[4..6] + s[6..8] + [s[8]] + s[9..11] + s[11..13] + s[13..15] + [s[15]]
    ensures s[..8] == s[..4] + s[4..6] + s[6..8] && s[9..15] == s[9..11] + s[11..13] + s[13..15]
  {
  }

  lemma Powers()
    ensures Power10(2) == 100 && Power10(4) == 10000
  {
  }

  /** Formatting and parsing undo each other, on exactly the calendar's times. */
  lemma StampExact(s: string, t: Time)
    ensures ParseStamp(s) == Some(t) <==> ValidTime(t) && s == Stamp(t)
  {
    Powers();
    if ValidTime(t) && s == Stamp(t) {
      StampParses(t);
    }
    if ParseStamp(s) == Some(t) {
      SlicesAre(s);
      PadUnique(s[..4]);
      PadUnique(s[4..6]);
      PadUnique(s[6..8]);
      PadUnique(s[9..11]);
      PadUnique(s[11..13]);
      PadUnique(s[13..15]);
      hide Pad, DecimalValue, AllDigits, ValidTime;
      assert [s[8]] == "T" && [s[15]] == "Z";
    }
  }

  lemma StampParses(t: Time)
    requires ValidTime(t)
    ensures ParseStamp(Stamp(t)) == Some(t)
  {
    Powers();
    StampSlices(t);
    SlicesAre(Stamp(t));
    PadValue(t.year, 4);
    PadValue(t.month, 2);
    PadValue(t.day, 2);
    PadValue(t.hour, 2);
    PadValue(t.minute, 2);
    PadValue(t.second, 2);
    hide Pad, DecimalValue, Stamp;
  }

  // ---- names ------------------------------------------------------------------------------------

  datatype Parts = Parts(stamp: string, id: string, suffix: string)

  predicate Digits(s: string) {
    s != "" && AllDigits(s)
  }

  /** The pattern: stamp, '-', id, '-', digits. */
  predicate Matches(name: string, p: Parts) {
    name == p.stamp + "-" + p.id + "-" + p.suffix && StampShape(p.stamp) && IdText(p.id) && Digits(p.suffix)
  }

  /** Position after the last '-'. */
  function AfterLastDash(name: string): (k: nat)
    ensures k <= |name| && (k > 0 ==> name[k - 1] == '-') && '-' !in name[k..]
    decreases |name|
  {
    if name == "" then 0
    else if name[|name| - 1] == '-' then |name|
    else
      var k := AfterLastDash(name[..|name| - 1]);
      assert name[k..] == name[..|name| - 1][k..] + [name[|name| - 1]];
      k
  }

  lemma LastDashUnique(name: string, j: nat)
    requires 0 < j <= |name| && name[j - 1] == '-' && '-' !in name[j..]
    ensures AfterLastDash(name) == j
    decreases |name|
  {
  }

  function ParseName(name: string): Option<Parts> {
    var k := AfterLastDash(name);
    if k < 18 || name[16] != '-' then None
    else
      var p := Parts(name[..16], name[17..k - 1], name[k..]);
      if Matches(name, p) then Some(p) else None
  }

  /** The pattern matches a name in at most one way, and ParseName finds it. */
  lemma ParseExact(name: string, p: Parts)
    ensures ParseName(name) == Some(p) <==> Matches(name, p)
  {
    if Matches(name, p) {
      var k := AfterLastDash(name);
      var j := |p.stamp| + 2 + |p.id|;
      assert name[j..] == p.suffix;
      assert name[j - 1] == '-';
      NoDashInDigits(p.suffix);
      LastDashUnique(name, j);
      assert name[..16] == p.stamp && name[16] == '-' && name[17..k - 1] == p.id;
    }
  }

  lemma NoDashInDigits(s: string)
    requires AllDigits(s)
    ensures '-' !in s
  {
  }

  function EntryName(t: Time, id: string, suffix: string): string {
    Stamp(t) + "-" + id + "-" + suffix
  }

  predicate ValidEntryName(name: string) {
    var p := ParseName(name);
    p.Some? && ValidId(p.value.id) && ParseStamp(p.value.stamp).Some?
  }

  /** Every name the archiver builds is one the pruner accepts, and it reads back the same
      time, id and suffix, whatever '-' and digits the id contains. */
  lemma BuiltNamesParse(t: Time, id: string, suffix: string)
    requires ValidTime(t) && ValidId(id) && Digits(suffix)
    ensures ValidEntryName(EntryName(t, id, suffix))
    ensures ParseName(EntryName(t, id, suffix)) == Some(Parts(Stamp(t), id, suffix))
    ensures ParseStamp(Stamp(t)) == Some(t)
  {
    StampParses(t);
    ParseExact(EntryName(t, id, suffix), Parts(Stamp(t), id, suffix));
  }

  /** Conversely every accepted name is one the archiver can have built, in exactly one way. */
  lemma AcceptedNamesAreBuilt(name: string) returns (t: Time, id: string, suffix: string)
    requires ValidEntryName(name)
    ensures ValidTime(t) && ValidId(id) && Digits(suffix) && name == EntryName(t, id, suffix)
    ensures forall t', id', suffix' | ValidTime(t') && ValidId(id') && Digits(suffix') &&
              name == EntryName(t', id', suffix') ::
              t' == t && id' == id && suffix' == suffix
  {
    var p := ParseName(name).value;
    ParseExact(name, p);
    t, id, suffix := ParseStamp(p.stamp).value, p.id, p.suffix;
    StampExact(p.stamp, t);
    hide ParseName, ParseStamp, Stamp, ValidId, ValidTime, Digits;
    forall t', id', suffix' | ValidTime(t') && ValidId(id') && Digits(suffix') && name == EntryName(t', id', suffix')
      ensures t' == t && id' == id && suffix' == suffix
    {
      BuiltNamesParse(t', id', suffix');
    }
  }

  const STAGING := ".staging-"

  /** A staging directory is never taken for an entry, nor an entry for hidden. */
  lemma EntriesAreNotHidden(name: string)
    requires ValidEntryName(name)
    ensures name[0] != '.' && !(STAGING <= name)
  {
  }

  // ---- order ------------------------------------------------------------------------------------

  /** Byte order of strings. */
  predicate Less(a: string, b: string) {
    b != "" && (a == "" || a[0] < b[0] || (a[0] == b[0] && Less(a[1..], b[1..])))
  }

  lemma {:induction false} LessTotal(a: string, b: string)
    ensures (Less(a, b) && !Less(b, a) && a != b) || (Less(b, a) && !Less(a, b) && a != b) ||
              (a == b && !Less(a, b) && !Less(b, a))
    decreases |a|
  {
    if a == "" || b == "" {
    } else {
      LessTotal(a[1..], b[1..]);
      assert a == [a[0]] + a[1..] && b == [b[0]] + b[1..];
    }
  }

  lemma {:induction false} LessTransitive(a: string, b: string, c: string)
    requires Less(a, b) && Less(b, c)
    ensures Less(a, c)
    decreases |a|
  {
    if a == "" || a[0] < b[0] || b[0] < c[0] {
    } else {
      LessTransitive(a[1..], b[1..], c[1..]);
    }
  }

  /** Strings that start with equally long parts are ordered by these first. */
  lemma {:induction false} LessConcat(a: string, b: string, x: string, y: string)
    requires |a| == |b|
    ensures Less(a + x, b + y) <==> Less(a, b) || (a == b && Less(x, y))
    decreases |a|
  {
    if a == "" {
      assert a + x == x && b + y == y;
    } else {
      assert (a + x)[1..] == a[1..] + x && (b + y)[1..] == b[1..] + y;
      LessConcat(a[1..], b[1..], x, y);
      assert a == [a[0]] + a[1..] && b == [b[0]] + b[1..];
    }
  }

  lemma {:induction false} PadOrder(m: nat, n: nat, width: nat)
    requires m < Power10(width) && n < Power10(width)
    ensures Less(Pad(m, width), Pad(n, width)) <==> m < n
    ensures Pad(m, width) == Pad(n, width) <==> m == n
  {
    if width == 0 {
    } else {
      PadOrder(m / 10, n / 10, width - 1);
      LessConcat(Pad(m / 10, width - 1), Pad(n / 10, width - 1), [Digit(m % 10)], [Digit(n % 10)]);
      DigitOrder(m % 10, n % 10);
      PadValue(m, width);
      PadValue(n, width);
    }
  }

  lemma DigitOrder(c: int, d: int)
    requires 0 <= c < 10 && 0 <= d < 10
    ensures Less([Digit(c)], [Digit(d)]) <==> c < d
  {
  }

  predicate Before(s: Time, t: Time) {
    s.year < t.year || (s.year == t.year &&
    (s.month < t.month || (s.month == t.month &&
    (s.day < t.day || (s.day == t.day &&
    (s.hour < t.hour || (s.hour == t.hour &&
    (s.minute < t.minute || (s.minute == t.minute && s.second < t.second)))))))))
  }

  lemma StampOrder(s: Time, t: Time)
    requires ValidTime(s) && ValidTime(t)
    ensures Less(Stamp(s), Stamp(t)) <==> Before(s, t)
  {
    Powers();
    PadOrder(s.year, t.year, 4);
    PadOrder(s.month, t.month, 2);
    DayOrder(s, t);
    var (a, b) := (Pad(s.day, 2) + ("T" + Clock(s)), Pad(t.day, 2) + ("T" + Clock(t)));
    StampSplits(s);
    StampSplits(t);
    hide *;
    LessConcat(Pad(s.year, 4), Pad(t.year, 4), Pad(s.month, 2) + a, Pad(t.month, 2) + b);
    LessConcat(Pad(s.month, 2), Pad(t.month, 2), a, b);
    StampOrderIs(s, t);
  }

  lemma StampSplits(t: Time)
    ensures Stamp(t) == Pad(t.year, 4) + (Pad(t.month, 2) + (Pad(t.day, 2) + ("T" + Clock(t))))
  {
  }

  lemma StampOrderIs(s: Time, t: Time)
    ensures Before(s, t) <==>
              s.year < t.year ||
              (s.year == t.year && (s.month < t.month || (s.month == t.month && LaterInMonth(s, t))))
  {
  }

  predicate LaterInMonth(s: Time, t: Time) {
    s.day < t.day || (s.day == t.day && LaterInDay(s, t))
  }

  predicate LaterInDay(s: Time, t: Time) {
    s.hour < t.hour || (s.hour == t.hour && (s.minute < t.minute || (s.minute == t.minute && s.second < t.second)))
  }

  lemma DayOrder(s: Time, t: Time)
    requires ValidTime(s) && ValidTime(t)
    ensures Less(Pad(s.day, 2) + ("T" + Clock(s)), Pad(t.day, 2) + ("T" + Clock(t))) <==> LaterInMonth(s, t)
  {
    Powers();
    PadOrder(s.day, t.day, 2);
    ClockOrder(s, t);
    LessTotal("T", "T");
    LessConcat(Pad(s.day, 2), Pad(t.day, 2), "T" + Clock(s), "T" + Clock(t));
    LessConcat("T", "T", Clock(s), Clock(t));
    hide Pad, Less, Clock;
  }

  function Clock(t: Time): string {
    Pad(t.hour, 2) + Pad(t.minute, 2) + Pad(t.second, 2) + "Z"
  }

  lemma ClockSplits(t: Time)
    ensures Clock(t) == Pad(t.hour, 2) + (Pad(t.minute, 2) + (Pad(t.second, 2) + "Z"))
  {
  }

  lemma ClockOrder(s: Time, t: Time)
    requires ValidTime(s) && ValidTime(t)
    ensures Less(Clock(s), Clock(t)) <==> LaterInDay(s, t)
  {
    hide Pad, Less, Clock, Leap, DaysIn;
    Powers();
    PadOrder(s.hour, t.hour, 2);
    PadOrder(s.minute, t.minute, 2);
    PadOrder(s.second, t.second, 2);
    hide *;
    ClockSplits(s);
    ClockSplits(t);
    var (a, b) := (Pad(s.second, 2) + "Z", Pad(t.second, 2) + "Z");
    LessConcat(Pad(s.hour, 2), Pad(t.hour, 2), Pad(s.minute, 2) + a, Pad(t.minute, 2) + b);
    LessConcat(Pad(s.minute, 2), Pad(t.minute, 2), a, b);
    LessConcat(Pad(s.second, 2), Pad(t.second, 2), "Z", "Z");
    LessTotal("Z", "Z");
    LaterInDayIs(s, t);
  }

  lemma LaterInDayIs(s: Time, t: Time)
    ensures LaterInDay(s, t) <==>
              s.hour < t.hour ||
              (s.hour == t.hour && (s.minute < t.minute || (s.minute == t.minute && s.second < t.second)))
  {
  }

  /** Of two entries with different times, the earlier one has the smaller name, whatever
      their ids and suffixes. */
  lemma NameOrderIsAge(s: Time, t: Time, id: string, id': string, suffix: string, suffix': string)
    requires ValidTime(s) && ValidTime(t) && s != t
    ensures Less(EntryName(s, id, suffix), EntryName(t, id', suffix')) <==> Before(s, t)
  {
    hide *;
    StampOrder(s, t);
    NameSplits(s, id, suffix);
    NameSplits(t, id', suffix');
    LessConcat(Stamp(s), Stamp(t), "-" + id + "-" + suffix, "-" + id' + "-" + suffix');
    StampParses(s);
    StampParses(t);
  }

  lemma NameSplits(t: Time, id: string, suffix: string)
    ensures EntryName(t, id, suffix) == Stamp(t) + ("-" + id + "-" + suffix)
  {
  }

  // ---- oversized consoles -------------------------------------------------------------------------

  const HEAD_BYTES := 8 * 1024 * 1024

  function Decimal(n: nat): string
    decreases n
  {
    if n < 10 then [Digit(n)] else Decimal(n / 10) + [Digit(n % 10)]
  }

  function Marker(size: nat, head: nat, tail: nat): string {
    "\n--- console truncated: original " + Decimal(size) + " bytes, kept first " + Decimal(head) +
    " and last " + Decimal(tail) + " ---\n"
  }

  /** How a copy of console bytes ends: `copied` bytes arrived. */
  datatype Copy = Copy(fails: bool, copied: nat)

  /** How much of the budget goes to the start of the file. */
  function HeadOf(budget: nat): nat {
    if HEAD_BYTES < budget / 2 then HEAD_BYTES else budget / 2
  }

  /** Half of it, and at most 8 MiB; the odd byte goes to the end. */
  lemma HeadExact(budget: nat)
    ensures var h := HeadOf(budget);
            h <= 8 * 1024 * 1024 && 2 * h <= budget && (h == 8 * 1024 * 1024 || budget <= 2 * h + 1)
  {
  }

  /** The whole copy: the first bytes of the file, the marker, and its last bytes as they are when
      they are read. */
  function Truncated(data: seq<char>, budget: nat, size: nat): seq<char>
    requires size > budget
  {
    var h := HeadOf(budget);
    data[..if h <= |data| then h else |data|] + Marker(size, h, budget - h) +
    (if size - (budget - h) <= |data| then data[size - (budget - h)..] else [])
  }

  /** truncateCopy: `data` is the file as it is read, `size` what was asked of it before. On
      success the copy is the first and last bytes of the file around a marker; the two never
      overlap, and if the file has not changed size exactly `budget` of its bytes are kept. On
      every error a beginning of that is there, and the bytes reported are those written. */
  method TruncateCopy(data: seq<char>, budget: nat, size: nat, head: Copy, marker: Copy, sought: bool, tail: Copy,
                      closed: bool)
    returns (out: seq<char>, written: nat, err: bool)
    requires size > budget
    ensures written == |out| && out <= Truncated(data, budget, size)
    ensures var h := HeadOf(budget);
            !err ==>
              && h <= |data| && h <= size - (budget - h)
              && out == data[..h] + Marker(size, h, budget - h) +
                        (if size - (budget - h) <= |data| then data[size - (budget - h)..] else [])
              && (|data| == size ==> written == budget + |Marker(size, h, budget - h)|)
    ensures err <==>
              head.fails || |data| < HeadOf(budget) || marker.fails || !sought || tail.fails || !closed
  {
    hide Marker;
    var h := HEAD_BYTES;
    if h > budget / 2 {
      h := budget / 2;
    }
    var t := budget - h;
    var first := data[..if h <= |data| then h else |data|];
    var text := Marker(size, h, t);
    var rest := if size - t <= |data| then data[size - t..] else [];
    assert h == HeadOf(budget) && Truncated(data, budget, size) == first + text + rest;
    hide Truncated, HeadOf;
    if head.fails || |data| < h {
      out := Arrived(first, head);
      Begins([], first, text + rest, out);
      return out, |out|, true;
    }
    if marker.fails {
      out := first + Arrived(text, marker);
      Begins(first, text, rest, Arrived(text, marker));
      return out, |out|, true;
    }
    out := first + text;
    Begins(out, rest, [], if sought then Arrived(rest, tail) else []);
    if !sought { return out, |out|, true; }
    if tail.fails {
      out := out + Arrived(rest, tail);
      return out, |out|, true;
    }
    out := out + rest;
    return out, |out|, !closed;
  }

  lemma Begins(a: seq<char>, b: seq<char>, c: seq<char>, x: seq<char>)
    requires x <= b
    ensures a + x <= a + b + c
  {
  }

  /** What a failing write leaves of its bytes. */
  function Arrived(bytes: seq<char>, c: Copy): (r: seq<char>)
    ensures r <= bytes
  {
    bytes[..if c.copied <= |bytes| then c.copied else |bytes|]
  }
}
