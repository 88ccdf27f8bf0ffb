/** Snapshot IDs: a UTC time rendered at millisecond precision. */
module Times {
  import opened Sorting
  import Text

  /** A UTC time by its civil fields; lexicographic order of the fields is time order. */
  datatype Time = Time(year: nat, month: nat, day: nat, hour: nat, minute: nat, second: nat, nano: nat)

  predicate ValidTime(t: Time)
  {
    && t.year <= 9999 && 1 <= t.month <= 12 && 1 <= t.day <= 31
    && t.hour < 24 && t.minute < 60 && t.second < 60 && t.nano < 1_000_000_000
  }

  predicate FieldsBefore(a: Time, b: Time)
  {
    if a.year != b.year then a.year < b.year
    else if a.month != b.month then a.month < b.month
    else if a.day != b.day then a.day < b.day
    else if a.hour != b.hour then a.hour < b.hour
    else if a.minute != b.minute then a.minute < b.minute
    else if a.second != b.second then a.second < b.second
    else a.nano < b.nano
  }

  /** Millisecond and nanosecond positions of a time on an order-preserving scale. */
  function Millis(t: Time): int
  {
    (((((t.year * 12 + t.month - 1) * 31 + t.day - 1) * 24 + t.hour) * 60 + t.minute) * 60 + t.second) * 1000
    + t.nano / 1_000_000
  }

  function Rank(t: Time): int
  {
    Millis(t) * 1_000_000 + t.nano % 1_000_000
  }

  type Id = string

  function Digit(n: nat): char
    requires n < 10
  {
    '0' + n as char
  }

  /** `n` in decimal, zero-padded to `w` digits. */
  function Pad(n: nat, w: nat): (s: string)
    ensures |s| == w
  {
    if w == 0 then "" else Pad(n / 10, w - 1) + [Digit(n % 10)]
  }

  function IdFromTime(t: Time): (id: Id)
    ensures |id| == 19
  {
    Pad(t.year, 4) + (Pad(t.month, 2) + (Pad(t.day, 2) + ("T" + (Pad(t.hour, 2) + (Pad(t.minute, 2)
    + (Pad(t.second, 2) + (Pad(t.nano / 1_000_000, 3) + "Z")))))))
  }

  /** An ID that names an entry of a directory, and nothing above or below it. */
  predicate PlainId(id: Id)
  {
    id != "" && id != "." && id != ".." && '/' !in id && '\\' !in id
  }

  /** Such an ID leads to the directory of that name inside the snapshots directory; any other leads elsewhere. */
  lemma PlainStaysInDirectory(root: seq<string>, id: Id)
    requires forall p :: p in root ==> Text.Element(p)
    ensures PlainId(id) <==> Text.Resolve(root, Text.Split(id, Text.SLASHES)) == root + [id]
  {
    Text.ElementStaysInDirectory(root, id);
    assert PlainId(id) <==> Text.Element(id);
  }

  lemma {:induction false} PadIsDigits(n: nat, w: nat)
    ensures forall c :: c in Pad(n, w) ==> '0' <= c <= '9'
  {
    if w > 0 { PadIsDigits(n / 10, w - 1); }
  }

  /** IDs made from times are plain. */
  lemma IdIsPlain(t: Time)
    ensures PlainId(IdFromTime(t))
  {
    PadIsDigits(t.year, 4);
    PadIsDigits(t.month, 2);
    PadIsDigits(t.day, 2);
    PadIsDigits(t.hour, 2);
    PadIsDigits(t.minute, 2);
    PadIsDigits(t.second, 2);
    PadIsDigits(t.nano / 1_000_000, 3);
    forall c | c in IdFromTime(t) ensures '0' <= c <= '9' || c == 'T' || c == 'Z' {}
  }

  function Pow10(w: nat): nat
  {
    if w == 0 then 1 else 10 * Pow10(w - 1)
  }

  /** Padded decimals compare as the numbers do. */
  lemma {:induction false} PadOrder(n: nat, m: nat, w: nat)
    requires n < Pow10(w) && m < Pow10(w)
    ensures StrLess(Pad(n, w), Pad(m, w)) <==> n < m
    ensures Pad(n, w) == Pad(m, w) <==> n == m
  {
    if w > 0 {
      PadOrder(n / 10, m / 10, w - 1);
      StrLessConcat(Pad(n / 10, w - 1), Pad(m / 10, w - 1), [Digit(n % 10)], [Digit(m % 10)]);
      assert StrLess([Digit(n % 10)], [Digit(m % 10)]) <==> n % 10 < m % 10;
      assert n == n / 10 * 10 + n % 10 && m == m / 10 * 10 + m % 10;
    }
  }

  // ---- reading an ID back -----------------------------------------------------------

  function DigitValue(c: char): nat
  {
    if '0' <= c <= '9' then (c - '0') as nat else 0
  }

  function Number(s: string): nat
  {
    if s == "" then 0 else Number(s[..|s| - 1]) * 10 + DigitValue(s[|s| - 1])
  }

  lemma {:induction false} NumberOfPad(n: nat, w: nat)
    requires n < Pow10(w)
    ensures Number(Pad(n, w)) == n
  {
    if w > 0 {
      NumberOfPad(n / 10, w - 1);
      assert Pad(n, w)[..w - 1] == Pad(n / 10, w - 1);
    }
  }

  /** The civil fields that the digits of an ID stand for. */
  function TimeFromId(id: Id): Time
    requires |id| == 19
  {
    Time(Number(id[..4]), Number(id[4..6]), Number(id[6..8]), Number(id[9..11]), Number(id[11..13]),
         Number(id[13..15]), Number(id[15..18]) * 1_000_000)
  }

  lemma FieldsOfId(t: Time)
    ensures var id := IdFromTime(t);
            && id[..4] == Pad(t.year, 4) && id[4..6] == Pad(t.month, 2) && id[6..8] == Pad(t.day, 2) && id[8] == 'T'
            && id[9..11] == Pad(t.hour, 2) && id[11..13] == Pad(t.minute, 2) && id[13..15] == Pad(t.second, 2)
            && id[15..18] == Pad(t.nano / 1_000_000, 3) && id[18] == 'Z'
  {
  }

  /** An ID is a date, the letter T, a time of day to the millisecond, and the letter Z. */
  lemma IdTellsTime(t: Time)
    requires ValidTime(t)
    ensures var id := IdFromTime(t);
            TimeFromId(id) == t.(nano := t.nano / 1_000_000 * 1_000_000) && id[8] == 'T' && id[18] == 'Z'
  {
    assert Pow10(2) == 100 && Pow10(3) == 1000 && Pow10(4) == 10000;
    FieldsOfId(t);
    NumberOfPad(t.year, 4);
    NumberOfPad(t.month, 2);
    NumberOfPad(t.day, 2);
    NumberOfPad(t.hour, 2);
    NumberOfPad(t.minute, 2);
    NumberOfPad(t.second, 2);
    NumberOfPad(t.nano / 1_000_000, 3);
  }

  lemma RadixOrder(n: nat, m: nat, radix: nat, x: int, y: int)
    requires 0 <= x < radix && 0 <= y < radix
    ensures n * radix + x < m * radix + y <==> n < m || (n == m && x < y)
    ensures n * radix + x == m * radix + y <==> n == m && x == y
  {
    if n < m { assert (n + 1) * radix <= m * radix; }
    if m < n { assert (m + 1) * radix <= n * radix; }
  }

  /** The text and number of the fields read so far compare alike. */
  ghost predicate Alike(s: string, u: string, x: int, y: int)
  {
    (StrLess(s, u) <==> x < y) && (s == u <==> x == y)
  }

  /** One more field in front keeps them alike. */
  lemma FieldOrder(n: nat, m: nat, w: nat, s: string, u: string, radix: nat, x: int, y: int)
    requires n < Pow10(w) && m < Pow10(w)
    requires 0 <= x < radix && 0 <= y < radix
    requires Alike(s, u, x, y)
    ensures Alike(Pad(n, w) + s, Pad(m, w) + u, n * radix + x, m * radix + y)
  {
    PadOrder(n, m, w);
    StrLessConcat(Pad(n, w), Pad(m, w), s, u);
    RadixOrder(n, m, radix, x, y);
  }

  function ClockText(t: Time): string
  {
    Pad(t.hour, 2) + (Pad(t.minute, 2) + (Pad(t.second, 2) + (Pad(t.nano / 1_000_000, 3) + "Z")))
  }

  function ClockMillis(t: Time): int
  {
    t.hour * 3_600_000 + (t.minute * 60_000 + (t.second * 1000 + t.nano / 1_000_000))
  }

  lemma ClockOrder(a: Time, b: Time)
    requires ValidTime(a) && ValidTime(b)
    ensures Alike(ClockText(a), ClockText(b), ClockMillis(a), ClockMillis(b))
    ensures 0 <= ClockMillis(a) < 86_400_000 && 0 <= ClockMillis(b) < 86_400_000
  {
    var x, y := a.nano / 1_000_000, b.nano / 1_000_000;
    assert Pow10(2) == 100 && Pow10(3) == 1000;
    PadOrder(x, y, 3);
    StrLessConcat(Pad(x, 3), Pad(y, 3), "Z", "Z");
    StrLessIrreflexive("Z");
    var s, u := Pad(x, 3) + "Z", Pad(y, 3) + "Z";
    FieldOrder(a.second, b.second, 2, s, u, 1000, x, y);
    s, u, x, y := Pad(a.second, 2) + s, Pad(b.second, 2) + u, a.second * 1000 + x, b.second * 1000 + y;
    FieldOrder(a.minute, b.minute, 2, s, u, 60_000, x, y);
    s, u, x, y := Pad(a.minute, 2) + s, Pad(b.minute, 2) + u, a.minute * 60_000 + x, b.minute * 60_000 + y;
    FieldOrder(a.hour, b.hour, 2, s, u, 3_600_000, x, y);
  }

  /** IDs sort as text exactly as times sort by millisecond, and collide exactly within one. */
  lemma IdsEmbedTimeOrder(a: Time, b: Time)
    requires ValidTime(a) && ValidTime(b)
    ensures StrLess(IdFromTime(a), IdFromTime(b)) <==> Millis(a) < Millis(b)
    ensures IdFromTime(a) == IdFromTime(b) <==> Millis(a) == Millis(b)
  {
    ClockOrder(a, b);
    assert Pow10(2) == 100 && Pow10(4) == 10000;
    var s, u, x, y := "T" + ClockText(a), "T" + ClockText(b), ClockMillis(a), ClockMillis(b);
    StrLessConcat("T", "T", ClockText(a), ClockText(b));
    StrLessIrreflexive("T");
    FieldOrder(a.day, b.day, 2, s, u, 86_400_000, x, y);
    s, u, x, y := Pad(a.day, 2) + s, Pad(b.day, 2) + u, a.day * 86_400_000 + x, b.day * 86_400_000 + y;
    var x', y' := x - 86_400_000, y - 86_400_000;
    FieldOrder(a.month, b.month, 2, s, u, 2_678_400_000, x', y');
    s, u, x, y := Pad(a.month, 2) + s, Pad(b.month, 2) + u, a.month * 2_678_400_000 + x', b.month * 2_678_400_000 + y';
    x', y' := x - 2_678_400_000, y - 2_678_400_000;
    FieldOrder(a.year, b.year, 4, s, u, 32_140_800_000, x', y');
    assert a.year * 32_140_800_000 + x' == Millis(a) && b.year * 32_140_800_000 + y' == Millis(b);
    assert IdFromTime(a) == Pad(a.year, 4) + s && IdFromTime(b) == Pad(b.year, 4) + u;
  }

  /** The number scale carries the order of the civil fields, nanoseconds included. */
  lemma RankIsTimeOrder(a: Time, b: Time)
    requires ValidTime(a) && ValidTime(b)
    ensures FieldsBefore(a, b) <==> Rank(a) < Rank(b)
    ensures a == b <==> Rank(a) == Rank(b)
    ensures Rank(a) / 1_000_000 == Millis(a) && Millis(a) >= 0
  {
  }
}
