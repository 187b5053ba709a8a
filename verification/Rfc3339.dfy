/** Reading UTC timestamps of section 5.6 of RFC 3339 as seconds since 1970-01-01. */
module Rfc3339 {
  import opened CivilDate
  import opened MachineInts
  import opened Wrappers
  import Text

  const I32_MAX: nat := 0x7FFF_FFFF

  // ----- The parser -----

  predicate IsDigit(c: char) {
    '0' <= c <= '9'
  }

  function DigitsValue(text: string): Option<nat> {
    if text == "" then Some(0)
    else
      var init, last := DigitsValue(text[..|text| - 1]), text[|text| - 1];
      if init.None? || !IsDigit(last) then None else Some(init.value * 10 + (last - '0') as nat)
  }

  /** An unsigned number: a plus sign is allowed, an empty text, a lone sign and an overflow are refused. */
  function ParseU32(text: string): Option<nat> {
    var digits := if text != "" && text[0] == '+' then text[1..] else text;
    if digits == "" then None
    else
      var value := DigitsValue(digits);
      if value.Some? && value.value < TWO_32 then value else None
  }

  function ParseI32(text: string): Option<int> {
    var negative := text != "" && text[0] == '-';
    var digits := if text != "" && (text[0] == '+' || text[0] == '-') then text[1..] else text;
    if digits == "" then None
    else
      var value := DigitsValue(digits);
      if value.None? || value.value > I32_MAX + (if negative then 1 else 0) then None
      else
        var magnitude: int := value.value;
        Some(if negative then -magnitude else magnitude)
  }

  function StripSuffix(text: string, suffix: string): Option<string> {
    if |text| >= |suffix| && text[|text| - |suffix|..] == suffix then Some(text[..|text| - |suffix|]) else None
  }

  function SplitOnce(text: string, separator: char): Option<(string, string)> {
    if text == "" then None
    else if text[0] == separator then Some(("", text[1..]))
    else
      var rest := SplitOnce(text[1..], separator);
      if rest.None? then None else Some(([text[0]] + rest.value.0, rest.value.1))
  }

  function Split(text: string, separator: char): (parts: seq<string>)
    ensures |parts| >= 1
  {
    if text == "" then [""]
    else if text[0] == separator then [""] + Split(text[1..], separator)
    else
      var rest := Split(text[1..], separator);
      [[text[0]] + rest[0]] + rest[1..]
  }

  /** Parts after the third are not looked at. */
  function ParseDate(text: string): Option<(int, nat, nat)> {
    var parts := Split(text, '-');
    if |parts| < 3 then None
    else
      var year, month, day := ParseI32(parts[0]), ParseU32(parts[1]), ParseU32(parts[2]);
      if year.None? || month.None? || day.None? then None else Some((year.value, month.value, day.value))
  }

  function ParseTime(text: string): Option<(nat, nat, nat)> {
    var split := SplitOnce(text, '.');
    var parts := Split(if split.Some? then split.value.0 else text, ':');
    if |parts| < 3 then None
    else
      var hour, minute, second := ParseU32(parts[0]), ParseU32(parts[1]), ParseU32(parts[2]);
      if hour.None? || minute.None? || second.None? then None else Some((hour.value, minute.value, second.value))
  }

  /** The seconds of the day are added up in 32 bits, without a range check. */
  function EpochOf(date: (int, nat, nat), time: (nat, nat, nat)): Option<int> {
    var seconds := SecondsFromCivil(date.0, date.1, date.2);
    if seconds.None? then None else Some(seconds.value + (time.0 * 3600 + time.1 * 60 + time.2) % TWO_32)
  }

  function ParseNormalized(normalized: string): Option<int> {
    var split := SplitOnce(normalized, 'T');
    if split.None? then None
    else
      var date, time := ParseDate(split.value.0), ParseTime(split.value.1);
      if date.None? || time.None? then None else EpochOf(date.value, time.value)
  }

  function ParseEpochSeconds(value: string): Option<int> {
    var trimmed := Text.Trim(value);
    var zulu := StripSuffix(trimmed, "Z");
    var normalized := if zulu.Some? then zulu else StripSuffix(trimmed, "+00:00");
    if normalized.None? then None else ParseNormalized(normalized.value)
  }

  // ----- The printer of the standard -----

  datatype Timestamp = Timestamp(date: Date, hour: nat, minute: nat, second: nat, fraction: string, zulu: bool)

  predicate IsTimestamp(t: Timestamp) {
    && CivilDate.IsValid(t.date) && 0 <= t.date.year <= 9999
    && t.hour <= 23 && t.minute <= 59 && t.second <= 60
    && AllDigits(t.fraction)
  }

  predicate AllDigits(text: string) {
    forall i :: 0 <= i < |text| ==> IsDigit(text[i])
  }

  function Digit(n: nat): char
    requires n <= 9
  {
    '0' + n as char
  }

  function TwoDigits(n: nat): string
    requires n <= 99
  {
    [Digit(n / 10), Digit(n % 10)]
  }

  function PrintDate(date: Date): string
    requires CivilDate.IsValid(date) && 0 <= date.year <= 9999
  {
    TwoDigits(date.year / 100) + TwoDigits(date.year % 100) + "-" + (TwoDigits(date.month) + "-" + TwoDigits(date.day))
  }

  function PrintClock(t: Timestamp): string
    requires IsTimestamp(t)
  {
    TwoDigits(t.hour) + ":" + (TwoDigits(t.minute) + ":" + TwoDigits(t.second))
  }

  function PrintTime(t: Timestamp): string
    requires IsTimestamp(t)
  {
    PrintClock(t) + (if t.fraction == "" then "" else "." + t.fraction)
  }

  function Print(t: Timestamp): string
    requires IsTimestamp(t)
  {
    PrintDate(t.date) + "T" + PrintTime(t) + (if t.zulu then "Z" else "+00:00")
  }

  function EpochSecond(t: Timestamp): int
    requires IsTimestamp(t)
  {
    DayNumber(t.date) * SECONDS_PER_DAY + t.hour * 3600 + t.minute * 60 + t.second
  }

  // ----- Reading back what is printed -----

  lemma {:induction false} SplitOnceFindsFirst(head: string, separator: char, tail: string)
    requires separator !in head
    ensures SplitOnce(head + [separator] + tail, separator) == Some((head, tail))
  {
    var text := head + [separator] + tail;
    if head == "" {
      assert text[1..] == tail;
    } else {
      assert head[0] in head && [head[0]] + head[1..] == head;
      assert text[1..] == head[1..] + [separator] + tail;
      SplitOnceFindsFirst(head[1..], separator, tail);
    }
  }

  lemma {:induction false} SplitOnceFindsNone(text: string, separator: char)
    requires separator !in text
    ensures SplitOnce(text, separator) == None
  {
    if text != "" {
      SplitOnceFindsNone(text[1..], separator);
    }
  }

  lemma {:induction false} SplitKeepsWhole(text: string, separator: char)
    requires separator !in text
    ensures Split(text, separator) == [text]
  {
    if text != "" {
      assert text[0] in text && [text[0]] + text[1..] == text;
      SplitKeepsWhole(text[1..], separator);
    }
  }

  lemma {:induction false} SplitTakesFirst(head: string, separator: char, tail: string)
    requires separator !in head
    ensures Split(head + [separator] + tail, separator) == [head] + Split(tail, separator)
  {
    var text := head + [separator] + tail;
    if head == "" {
      assert text[1..] == tail;
    } else {
      assert head[0] in head && [head[0]] + head[1..] == head;
      assert text[1..] == head[1..] + [separator] + tail;
      SplitTakesFirst(head[1..], separator, tail);
    }
  }

  lemma SplitInThree(a: string, b: string, c: string, separator: char)
    requires separator !in a && separator !in b && separator !in c
    ensures Split(a + [separator] + (b + [separator] + c), separator) == [a, b, c]
  {
    SplitTakesFirst(a, separator, b + [separator] + c);
    SplitTakesFirst(b, separator, c);
    SplitKeepsWhole(c, separator);
  }

  lemma {:induction false} DigitsAppend(text: string, last: char)
    requires IsDigit(last) && DigitsValue(text).Some?
    ensures DigitsValue(text + [last]) == Some(DigitsValue(text).value * 10 + (last - '0') as nat)
  {
    assert (text + [last])[..|text + [last]| - 1] == text;
  }

  lemma TwoDigitsRead(n: nat)
    requires n <= 99
    ensures DigitsValue(TwoDigits(n)) == Some(n) && ParseU32(TwoDigits(n)) == Some(n)
  {
    assert DigitsValue("") == Some(0);
    DigitsAppend("", Digit(n / 10));
    DigitsAppend([Digit(n / 10)], Digit(n % 10));
    assert "" + [Digit(n / 10)] == [Digit(n / 10)];
    assert [Digit(n / 10)] + [Digit(n % 10)] == TwoDigits(n);
  }

  lemma FourDigitsRead(n: nat)
    requires n <= 9999
    ensures ParseI32(TwoDigits(n / 100) + TwoDigits(n % 100)) == Some(n)
  {
    var high, low := TwoDigits(n / 100), TwoDigits(n % 100);
    TwoDigitsRead(n / 100);
    DigitsAppend(high, low[0]);
    DigitsAppend(high + [low[0]], low[1]);
    assert high + [low[0]] + [low[1]] == high + low;
  }

  lemma DateReadsBack(date: Date)
    requires CivilDate.IsValid(date) && 0 <= date.year <= 9999
    ensures ParseDate(PrintDate(date)) == Some((date.year, date.month, date.day))
  {
    var year := TwoDigits(date.year / 100) + TwoDigits(date.year % 100);
    SplitInThree(year, TwoDigits(date.month), TwoDigits(date.day), '-');
    FourDigitsRead(date.year);
    TwoDigitsRead(date.month);
    TwoDigitsRead(date.day);
  }

  lemma TimeReadsBack(t: Timestamp)
    requires IsTimestamp(t)
    ensures ParseTime(PrintTime(t)) == Some((t.hour, t.minute, t.second))
  {
    var clock := PrintClock(t);
    if t.fraction == "" {
      assert PrintTime(t) == clock;
      SplitOnceFindsNone(clock, '.');
    } else {
      assert PrintTime(t) == clock + ['.'] + t.fraction;
      SplitOnceFindsFirst(clock, '.', t.fraction);
    }
    SplitInThree(TwoDigits(t.hour), TwoDigits(t.minute), TwoDigits(t.second), ':');
    TwoDigitsRead(t.hour);
    TwoDigitsRead(t.minute);
    TwoDigitsRead(t.second);
  }

  lemma PrintedBodyReadsBack(t: Timestamp)
    requires IsTimestamp(t)
    ensures ParseNormalized(PrintDate(t.date) + "T" + PrintTime(t)) == Some(EpochSecond(t))
  {
    SplitOnceFindsFirst(PrintDate(t.date), 'T', PrintTime(t));
    DateReadsBack(t.date);
    TimeReadsBack(t);
    EpochCounts(t);
  }

  lemma EpochCounts(t: Timestamp)
    requires IsTimestamp(t)
    ensures EpochOf((t.date.year, t.date.month, t.date.day), (t.hour, t.minute, t.second)) == Some(EpochSecond(t))
  {
    SecondsCountDays(t.date.year, t.date.month, t.date.day);
  }

  lemma OffsetStripsOff(body: string, zulu: bool)
    ensures zulu ==> StripSuffix(body + "Z", "Z") == Some(body)
    ensures !zulu ==> StripSuffix(body + "+00:00", "Z") == None && StripSuffix(body + "+00:00", "+00:00") == Some(body)
  {
    if !zulu {
      var text := body + "+00:00";
      assert text[|text| - 1..] == ['0'];
      assert text[|text| - 6..] == "+00:00" && text[..|text| - 6] == body;
    }
  }

  /** A printed UTC timestamp, with any surrounding white space, is read as its second; the fraction is dropped. */
  lemma PrintedTimestampReadsBack(before: string, t: Timestamp, after: string)
    requires IsTimestamp(t) && Text.IsBlank(before) && Text.IsBlank(after)
    ensures ParseEpochSeconds(before + Print(t) + after) == Some(EpochSecond(t))
  {
    var body := PrintDate(t.date) + "T" + PrintTime(t);
    PrintedBodyReadsBack(t);
    OffsetStripsOff(body, t.zulu);
    EdgesAreNotBlank(t);
    Text.TrimDropsPadding(before, Print(t), after);
  }

  lemma EdgesAreNotBlank(t: Timestamp)
    requires IsTimestamp(t)
    ensures var text := Print(t);
            text != "" && !Text.IsWhitespace(text[0]) && !Text.IsWhitespace(text[|text| - 1])
  {
    var body, offset := PrintDate(t.date) + "T" + PrintTime(t), if t.zulu then "Z" else "+00:00";
    assert body[0] == TwoDigits(t.date.year / 100)[0];
    assert (body + offset)[|body + offset| - 1] == offset[|offset| - 1];
  }
}
