/** Version strings `yyyyMMdd.n` and the rule that picks the next one. */
module Version {
  import opened Common
  import opened Text

  const INITIAL_VERSION: string := "19700101.0"

  /** `DateTime.Now.ToString("yyyyMMdd")` */
  predicate IsDate(s: string) {
    |s| == 8 && AllDigits(s)
  }

  function Print(date: string, n: Int32): string {
    date + "." + PrintInt(n)
  }

  /** Today's next number: one more than the current one on the same day, else 1. */
  function UpdateVersion(current: string, today: string): Outcome<string> {
    if current == "" then Ok(Print(today, 1))
    else
      var parts := Split(current, '.');
      if parts[0] != today then Ok(Print(today, 1))
      else if |parts| < 2 then Failed
      else
        match ParseInt(parts[1])
        case Failed => Failed
        case Ok(n) => Ok(Print(today, WrapInt32(n + 1)))
  }

  // ---------------------------------------------------------------- reading a version back

  predicate IsVersion(v: string) {
    && |v| > 9 && IsDate(v[..8]) && v[8] == '.'
    && ParseInt(v[9..]).Ok? && PrintInt(ParseInt(v[9..]).value) == v[9..]
  }

  function DateOf(v: string): nat
    requires IsVersion(v)
  {
    DigitsValue(v[..8])
  }

  function NumberOf(v: string): Int32
    requires IsVersion(v)
  {
    ParseInt(v[9..]).value
  }

  /** Later day, or same day and larger number. */
  predicate Precedes(a: string, b: string)
    requires IsVersion(a) && IsVersion(b)
  {
    DateOf(a) < DateOf(b) || (DateOf(a) == DateOf(b) && NumberOf(a) < NumberOf(b))
  }

  /** The printed form is read back as the pair it was made from. */
  lemma PrintedIsRead(date: string, n: Int32)
    requires IsDate(date)
    ensures IsVersion(Print(date, n))
    ensures DateOf(Print(date, n)) == DigitsValue(date) && NumberOf(Print(date, n)) == n
    ensures Split(Print(date, n), '.') == [date, PrintInt(n)]
  {
    var v := Print(date, n);
    IntRoundTrip(n);
    assert v[..8] == date && v[9..] == PrintInt(n);
    assert '.' !in date;
    SplitOnce(date, PrintInt(n), '.');
    SplitNone(PrintInt(n), '.');
  }

  lemma VersionIsPrinted(v: string)
    requires IsVersion(v)
    ensures v == Print(v[..8], NumberOf(v))
  {
  }

  /** Two versions with the same date and number are the same string. */
  lemma KeyDeterminesVersion(a: string, b: string)
    requires IsVersion(a) && IsVersion(b) && DateOf(a) == DateOf(b) && NumberOf(a) == NumberOf(b)
    ensures a == b
  {
    DigitsValueInjective(a[..8], b[..8]);
    VersionIsPrinted(a);
    VersionIsPrinted(b);
  }

  /** What the next publish makes of a version an earlier publish printed. */
  lemma UpdateOfPrinted(date: string, n: Int32, today: string)
    requires IsDate(date) && IsDate(today)
    ensures UpdateVersion(Print(date, n), today) == Ok(Print(today, if date == today then WrapInt32(n + 1) else 1))
  {
    PrintedIsRead(date, n);
    IntRoundTrip(n);
  }

  lemma UpdateToNumber(date: string, n: Int32, today: string, next: Int32)
    requires IsDate(date) && IsDate(today) && next == if date == today then WrapInt32(n + 1) else 1
    ensures UpdateVersion(Print(date, n), today) == Ok(Print(today, next))
  {
    UpdateOfPrinted(date, n, today);
  }

  /** A version of another day, or none, is followed by today's first. */
  lemma UpdateOnNewDay(current: string, today: string)
    requires IsDate(today) && current != today && !(today + "." <= current)
    ensures UpdateVersion(current, today) == Ok(Print(today, 1))
  {
    var i := IndexOf(current, '.');
    if i < |current| {
      assert current[..i + 1] == current[..i] + ".";
    } else {
      assert current[..i] == current;
    }
  }

  /** A version of today without a number, or with one that does not parse, is an exception; what follows a second dot is ignored. */
  lemma UpdateOnSameDay(today: string, number: string, more: string)
    requires IsDate(today) && '.' !in number && (more == "" || more[0] == '.')
    ensures UpdateVersion(today, today) == Failed
    ensures UpdateVersion(today + "." + (number + more), today) ==
            match ParseInt(number) case Failed => Failed case Ok(n) => Ok(Print(today, WrapInt32(n + 1)))
  {
    assert '.' !in today;
    SplitNone(today, '.');
    SplitTwice(today, number, more, '.');
  }

  /** The guard a caller could check: on the same day, a number is left to hand out. */
  predicate NumberLeft(v: string, today: string)
    requires IsVersion(v)
  {
    v[..8] == today ==> NumberOf(v) < INT32_MAX
  }

  lemma PrintedOrder(a: string, m: Int32, b: string, n: Int32)
    requires IsDate(a) && IsDate(b)
    ensures IsVersion(Print(a, m)) && IsVersion(Print(b, n))
    ensures Precedes(Print(a, m), Print(b, n)) <==>
            DigitsValue(a) < DigitsValue(b) || (DigitsValue(a) == DigitsValue(b) && m < n)
  {
    PrintedIsRead(a, m);
    PrintedIsRead(b, n);
  }

  /**
   With a clock that has not gone back, the new version is later exactly when a
   number was left; when the day's numbers have run out, `int` wrap-around makes
   it an earlier one.
   */
  lemma NextVersionIsLater(v: string, today: string) returns (next: string)
    requires IsVersion(v) && IsDate(today) && DateOf(v) <= DigitsValue(today)
    ensures UpdateVersion(v, today) == Ok(next) && IsVersion(next) && DateOf(next) == DigitsValue(today)
    ensures Precedes(v, next) <==> NumberLeft(v, today)
    ensures Precedes(next, v) <==> !NumberLeft(v, today)
  {
    VersionIsPrinted(v);
    next := NextPrintedIsLater(v[..8], NumberOf(v), today);
  }

  lemma NextPrintedIsLater(date: string, m: Int32, today: string) returns (next: string)
    requires IsDate(date) && IsDate(today) && DigitsValue(date) <= DigitsValue(today)
    ensures UpdateVersion(Print(date, m), today) == Ok(next)
    ensures IsVersion(Print(date, m)) && IsVersion(next) && DateOf(next) == DigitsValue(today)
    ensures Precedes(Print(date, m), next) <==> (date == today ==> m < INT32_MAX)
    ensures Precedes(next, Print(date, m)) <==> !(date == today ==> m < INT32_MAX)
  {
    UpdateOfPrinted(date, m, today);
    var n := if date == today then WrapInt32(m + 1) else 1;
    next := Print(today, n);
    PrintedIsRead(today, n);
    PrintedOrder(date, m, today, n);
    PrintedOrder(today, n, date, m);
    SameDayIsSameDate(date, today);
    StepIsLater(m);
  }

  lemma SameDayIsSameDate(a: string, b: string)
    requires IsDate(a) && IsDate(b)
    ensures DigitsValue(a) == DigitsValue(b) <==> a == b
  {
    if DigitsValue(a) == DigitsValue(b) {
      DigitsValueInjective(a, b);
    }
  }

  lemma StepIsLater(n: Int32)
    ensures n < WrapInt32(n + 1) <==> n < INT32_MAX
    ensures n > WrapInt32(n + 1) <==> n == INT32_MAX
  {
  }

  // ---------------------------------------------------------------- versions given out so far

  /** A version as the pair it prints. */
  datatype Key = Key(date: string, number: Int32)

  function KeyOf(v: string): Key
    requires IsVersion(v)
  {
    Key(v[..8], NumberOf(v))
  }

  lemma KeyOfPrinted(date: string, n: Int32)
    requires IsDate(date)
    ensures IsVersion(Print(date, n)) && KeyOf(Print(date, n)) == Key(date, n)
  {
    PrintedIsRead(date, n);
    assert Print(date, n)[..8] == date;
  }

  lemma KeyIsVersion(a: string, b: string)
    requires IsVersion(a) && IsVersion(b)
    ensures KeyOf(a) == KeyOf(b) <==> a == b
  {
    VersionIsPrinted(a);
    VersionIsPrinted(b);
  }

  function NextKey(current: Key, today: string): Key {
    Key(today, if current.date == today then WrapInt32(current.number + 1) else 1)
  }

  lemma UpdateIsNextKey(v: string, today: string) returns (next: string)
    requires IsVersion(v) && IsDate(today)
    ensures UpdateVersion(v, today) == Ok(next) && IsVersion(next) && KeyOf(next) == NextKey(KeyOf(v), today)
  {
    VersionIsPrinted(v);
    UpdateOfPrinted(v[..8], NumberOf(v), today);
    var k := NextKey(KeyOf(v), today);
    next := Print(today, k.number);
    KeyOfPrinted(today, k.number);
  }

  /** The place of a number among those of its day: 1, 2, ... and, past the wrap, the negatives up to 0. */
  function Rank(n: Int32): nat {
    if n >= 1 then n else n + 0x1_0000_0000
  }

  lemma NextRank(n: Int32)
    ensures if n == 0 then WrapInt32(n + 1) == 1 else Rank(WrapInt32(n + 1)) == Rank(n) + 1
  {
  }

  const INITIAL_KEY: Key := Key("19700101", 0)

  /**
   What any sequence of publishes keeps, whatever the clock does, as long as no version is
   given out twice: each day that was used began with number 1, and of the current day
   nothing beyond the current number has been given out.
   */
  ghost predicate Issued(issued: set<Key>, current: Key) {
    && (if issued == {} then current == INITIAL_KEY else current in issued)
    && forall k :: k in issued ==>
         Key(k.date, 1) in issued && (k.date == current.date ==> Rank(k.number) <= Rank(current.number))
  }

  /**
   The guard a publisher could check against what it has given out: on the day of the
   current version its number is not the last one a day has, which is 0; on any other day,
   no version of that day has been given out.
   */
  predicate VersionFree(issued: set<Key>, current: Key, today: string) {
    issued == {} ||
    if today == current.date then current.number != 0 else forall k :: k in issued ==> k.date != today
  }

  /** The next version has not been given out before exactly when the guard holds. */
  lemma FreshVersionExactly(issued: set<Key>, current: Key, today: string)
    requires Issued(issued, current)
    ensures var next := NextKey(current, today);
            && (next !in issued <==> VersionFree(issued, current, today))
            && (next !in issued ==> Issued(issued + {next}, next))
  {
    NextRank(current.number);
    var next := NextKey(current, today);
    if next !in issued {
      assert Key(today, 1) in issued + {next};
    }
  }

  /** A clock that goes back and forth hands out the same version twice. */
  lemma ClockRollbackRepeatsVersion(v: string, day: string, earlier: string)
    requires IsVersion(v) && IsDate(day) && IsDate(earlier) && v[..8] != day && day != earlier
    ensures var first := UpdateVersion(v, day);
            var second := UpdateVersion(first.value, earlier);
            first.Ok? && second.Ok? && UpdateVersion(second.value, day) == first
  {
    VersionIsPrinted(v);
    UpdateOfPrinted(v[..8], NumberOf(v), day);
    UpdateOfPrinted(day, 1, earlier);
    UpdateOfPrinted(earlier, 1, day);
  }
}
