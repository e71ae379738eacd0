/** The look-back computation of `main` in zabbix_anomaly.go: an item's update interval
    (its `delay`, a decimal count with an optional time suffix) is turned into seconds, and
    the history is fetched from `num` intervals before `now`. */
module Schedule {

  datatype Option<T> = None | Some(value: T)

  predicate HasSuffix(s: string, u: char) {
    |s| > 0 && s[|s| - 1] == u
  }

  /** `s` without its last character. */
  function Chop(s: string): string
    requires |s| > 0
  {
    s[..|s| - 1]
  }

  /** The suffix test chain: a trailing `m`, `h`, `d` or `w` is removed and picks the
      number of seconds per unit; anything else keeps the string whole with 1 second. */
  function SplitSuffix(delay: string): (string, int) {
    if HasSuffix(delay, 'm') then (Chop(delay), 60)
    else if HasSuffix(delay, 'h') then (Chop(delay), 60 * 60)
    else if HasSuffix(delay, 'd') then (Chop(delay), 60 * 60 * 24)
    else if HasSuffix(delay, 'w') then (Chop(delay), 60 * 60 * 24 * 7)
    else (delay, 1)
  }

  /** Exactly one unit character is removed, whatever precedes it. */
  lemma SuffixRemovedOnce(s: string)
    ensures SplitSuffix(s + "m") == (s, 60)
    ensures SplitSuffix(s + "h") == (s, 3600)
    ensures SplitSuffix(s + "d") == (s, 86400)
    ensures SplitSuffix(s + "w") == (s, 604800)
  {
  }

  /** A string that does not end in a unit character is kept whole, with 1 second per unit. */
  lemma NoSuffixKept(s: string)
    requires s == [] || s[|s| - 1] !in "mhdw"
    ensures SplitSuffix(s) == (s, 1)
  {
  }

  // ---------------------------------------------------------------- decimal counts

  predicate IsDigit(ch: char) {
    '0' <= ch <= '9'
  }

  predicate AllDigits(s: string) {
    forall i :: 0 <= i < |s| ==> IsDigit(s[i])
  }

  /** The value of a string of decimal digits, most significant first. */
  function DigitsValue(s: string): nat
    requires AllDigits(s)
  {
    if s == [] then 0 else 10 * DigitsValue(s[..|s| - 1]) + (s[|s| - 1] as int - '0' as int)
  }

  /** `strconv.ParseInt(s, 10, 64)` on syntax: an optional sign followed by at least one
      decimal digit; `None` for anything else. */
  function ParseDecimal(s: string): Option<int> {
    if |s| > 0 && (s[0] == '+' || s[0] == '-') then
      if |s| > 1 && AllDigits(s[1..]) then
        var magnitude: int := DigitsValue(s[1..]);
        Some(if s[0] == '-' then -magnitude else magnitude)
      else None
    else if |s| > 0 && AllDigits(s) then Some(DigitsValue(s))
    else None
  }

  function Digit(d: int): char
    requires 0 <= d < 10
  {
    ('0' as int + d) as char
  }

  /** The decimal rendering of `n`, without leading zeros. */
  function Decimal(n: nat): string {
    if n < 10 then [Digit(n)] else Decimal(n / 10) + [Digit(n % 10)]
  }

  lemma {:induction false} DecimalDigits(n: nat)
    ensures |Decimal(n)| > 0 && AllDigits(Decimal(n))
    ensures DigitsValue(Decimal(n)) == n
  {
    if n >= 10 {
      DecimalDigits(n / 10);
      var s := Decimal(n);
      assert s[..|s| - 1] == Decimal(n / 10);
    }
  }

  /** Parsing a rendered count gives the count back, with or without a sign. */
  lemma ParseDecimalRoundTrip(n: nat)
    ensures ParseDecimal(Decimal(n)) == Some(n)
    ensures ParseDecimal("+" + Decimal(n)) == Some(n)
    ensures ParseDecimal("-" + Decimal(n)) == Some(-(n as int))
  {
    DecimalDigits(n);
    assert ("+" + Decimal(n))[1..] == Decimal(n);
    assert ("-" + Decimal(n))[1..] == Decimal(n);
  }

  /** A count ending in anything but a digit does not parse. */
  lemma ParseDecimalRejectsTrailing(s: string, ch: char)
    requires !IsDigit(ch)
    ensures ParseDecimal(s + [ch]) == None
  {
  }

  /** The count the program uses: the parse error is ignored, and `ParseInt` then yields 0. */
  function DelayCount(s: string): int {
    match ParseDecimal(s)
    case Some(n) => n
    case None => 0
  }

  // ---------------------------------------------------------------- the look-back

  /** `from_time`: `now` minus `num` update intervals. */
  function FromTime(delay: string, now: int, num: int): int {
    var (count, multiplier) := SplitSuffix(delay);
    var delaySeconds := DelayCount(count) * multiplier;
    now - delaySeconds * num
  }

  /** A count with a minute, hour, day or week suffix, or none, reaches back that many
      units per interval. */
  lemma FromTimeUnits(n: nat, now: int, num: int)
    ensures FromTime(Decimal(n), now, num) == now - n * num
    ensures FromTime(Decimal(n) + "m", now, num) == now - n * 60 * num
    ensures FromTime(Decimal(n) + "h", now, num) == now - n * 3600 * num
    ensures FromTime(Decimal(n) + "d", now, num) == now - n * 86400 * num
    ensures FromTime(Decimal(n) + "w", now, num) == now - n * 604800 * num
  {
    ParseDecimalRoundTrip(n);
    SuffixRemovedOnce(Decimal(n));
    DecimalDigits(n);
    var s := Decimal(n);
    assert IsDigit(s[|s| - 1]);
    NoSuffixKept(s);
  }

  /** As written, a delay with the seconds suffix (`30s`) does not parse, so its count is 0
      and the look-back is empty: `from_time` is `now` itself. */
  lemma FromTimeIgnoresSeconds(n: nat, now: int, num: int)
    ensures FromTime(Decimal(n) + "s", now, num) == now
  {
  }

  /** The suffix test chain with the seconds suffix handled too. */
  function SplitSuffixWithSeconds(delay: string): (string, int) {
    if HasSuffix(delay, 's') then (Chop(delay), 1) else SplitSuffix(delay)
  }

  /** `from_time` with every time suffix Zabbix accepts (s, m, h, d, w). */
  function FromTimeWithSeconds(delay: string, now: int, num: int): int {
    var (count, multiplier) := SplitSuffixWithSeconds(delay);
    var delaySeconds := DelayCount(count) * multiplier;
    now - delaySeconds * num
  }

  /** With the correction a seconds count reaches back `n * num` seconds, and every other
      delay gives what the program as written gives. */
  lemma FromTimeWithSecondsCorrect(n: nat, now: int, num: int)
    ensures FromTimeWithSeconds(Decimal(n) + "s", now, num) == now - n * num
    ensures forall delay :: !HasSuffix(delay, 's') ==>
              FromTimeWithSeconds(delay, now, num) == FromTime(delay, now, num)
  {
    ParseDecimalRoundTrip(n);
    assert (Decimal(n) + "s")[..|Decimal(n)|] == Decimal(n);
  }
}
