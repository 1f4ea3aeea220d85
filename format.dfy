/** The time and tomato formatters of the task views, on integer
    milliseconds, with readers that take their text back apart. */
module Format {
  import opened Wrappers
  import opened Text
  import opened State
  import opened Board

  const SecondMs: int := 1000
  const MinuteMs: int := 60000
  const HourMs: int := 3600000
  /** Milliseconds in a day. */
  const DayMs: int := 86400000

  // ---------------------------------------------------------------------
  // Splitting text into fields
  // ---------------------------------------------------------------------

  /** The pieces of `s` between occurrences of `sep` (always at least one). */
  function Fields(s: string, sep: char): (r: seq<string>)
    ensures |r| >= 1
    decreases |s|
  {
    if s == [] then [""]
    else
      var rest := Fields(s[1..], sep);
      if s[0] == sep then [""] + rest else [[s[0]] + rest[0]] + rest[1..]
  }

  /** Text without the separator is a single field. */
  lemma {:induction false} FieldsWhole(a: string, sep: char)
    requires sep !in a
    ensures Fields(a, sep) == [a]
    decreases |a|
  {
    if a != [] {
      FieldsWhole(a[1..], sep);
      assert [a[0]] + a[1..] == a;
    }
  }

  /** A separator after a field without separators splits there. */
  lemma {:induction false} FieldsJoin(a: string, b: string, sep: char)
    requires sep !in a
    ensures Fields(a + [sep] + b, sep) == [a] + Fields(b, sep)
    decreases |a|
  {
    var s := a + [sep] + b;
    if a == [] {
      assert s[1..] == b;
    } else {
      assert s[1..] == a[1..] + [sep] + b;
      FieldsJoin(a[1..], b, sep);
      assert [a[0]] + a[1..] == a;
    }
  }

  /** Digit text holds no other character. */
  lemma DigitsExclude(s: string, c: char)
    requires AllDigits(s) && !IsDigit(c)
    ensures c !in s
  {
  }

  // ---------------------------------------------------------------------
  // formatTime
  // ---------------------------------------------------------------------

  /** `formatTime(ms)`: "0m" for no time; otherwise the largest non-zero of
      days, hours and minutes followed by the next smaller unit when it is
      not zero, or the seconds under a minute. Each count is truncated. */
  function FormatTime(ms: int): (r: string)
    ensures ms <= 0 ==> r == "0m"
    ensures ms > 0 ==> |r| >= 2 && r[|r| - 1] in "dhms"
  {
    if ms <= 0 then "0m"
    else
      var seconds := ms / 1000;
      var minutes := seconds / 60;
      var hours := minutes / 60;
      var days := hours / 24;
      if days > 0 then
        if hours % 24 > 0 then NatToString(days) + "d " + NatToString(hours % 24) + "h"
        else NatToString(days) + "d"
      else if hours > 0 then
        if minutes % 60 > 0 then NatToString(hours) + "h " + NatToString(minutes % 60) + "m"
        else NatToString(hours) + "h"
      else if minutes > 0 then NatToString(minutes) + "m"
      else NatToString(seconds) + "s"
  }

  /** The milliseconds a unit letter stands for. */
  function UnitMs(c: char): int {
    match c
    case 'd' => DayMs
    case 'h' => HourMs
    case 'm' => MinuteMs
    case 's' => SecondMs
    case _ => 0
  }

  /** The milliseconds one "<count><unit>" piece stands for. */
  function PieceMs(p: string): int {
    if |p| >= 1 && AllDigits(p[..|p| - 1]) then ParseNat(p[..|p| - 1]) * UnitMs(p[|p| - 1]) else 0
  }

  /** The milliseconds a formatted time stands for: its space-separated
      pieces added up. */
  function ShownMs(s: string): int {
    var f := Fields(s, ' ');
    PieceMs(f[0]) + (if |f| >= 2 then PieceMs(f[1]) else 0)
  }

  /** A count followed by its unit letter. */
  lemma PieceOf(n: nat, u: char)
    requires u in "dhms"
    ensures PieceMs(NatToString(n) + [u]) == n * UnitMs(u)
    ensures ' ' !in NatToString(n) + [u]
  {
    DigitsExclude(NatToString(n), ' ');
    var p := NatToString(n) + [u];
    assert p[..|p| - 1] == NatToString(n);
    ParseNatToString(n);
  }

  /** What one or two pieces stand for. */
  lemma ShownPieces(n: nat, u: char, m: nat, v: char)
    requires u in "dhms" && v in "dhms"
    ensures ShownMs(NatToString(n) + [u]) == n * UnitMs(u)
    ensures ShownMs(NatToString(n) + [u] + " " + NatToString(m) + [v]) == n * UnitMs(u) + m * UnitMs(v)
  {
    var a, b := NatToString(n) + [u], NatToString(m) + [v];
    PieceOf(n, u);
    PieceOf(m, v);
    FieldsWhole(a, ' ');
    FieldsWhole(b, ' ');
    FieldsJoin(a, b, ' ');
    assert NatToString(n) + [u] + " " + NatToString(m) + [v] == a + [' '] + b;
    assert Fields(a + [' '] + b, ' ') == [a, b];
  }

  /** Only the zero span is shown as "0m". */
  lemma FormatTimeZero(ms: int)
    ensures FormatTime(ms) == "0m" <==> ms <= 0
  {
    if ms > 0 {
      var r := FormatTime(ms);
      var minutes := ms / 1000 / 60;
      if r[|r| - 1] == 'm' && |r| == 2 {
        assert minutes < 60 * 24 && minutes / 60 == 0 && minutes > 0;
        assert r == NatToString(minutes) + "m";
        assert r[0] != '0';
      }
    }
  }

  /** The nested truncating divisions of `formatTime` are whole units. */
  lemma UnitCounts(ms: int)
    requires ms > 0
    ensures ms / 1000 / 60 == ms / MinuteMs
    ensures ms / 1000 / 60 / 60 == ms / HourMs
    ensures ms / 1000 / 60 / 60 / 24 == ms / DayMs
  {
  }

  /** From a day on, the days and hours shown are the whole hours elapsed. */
  lemma TruncatesToHours(ms: int)
    requires ms >= DayMs
    ensures ShownMs(FormatTime(ms)) == (ms / HourMs) * HourMs
  {
    UnitCounts(ms);
    var hours := ms / HourMs;
    var days := hours / 24;
    ShownPieces(days, 'd', hours % 24, 'h');
    assert NatToString(days) + "d " + NatToString(hours % 24) + "h"
      == NatToString(days) + ['d'] + " " + NatToString(hours % 24) + ['h'];
    assert NatToString(days) + "d" == NatToString(days) + ['d'];
    assert days * DayMs + (hours % 24) * HourMs == hours * HourMs;
  }

  /** From an hour to a day, the hours and minutes shown are the whole
      minutes elapsed. */
  lemma HoursToMinutes(ms: int)
    requires HourMs <= ms < DayMs
    ensures ShownMs(FormatTime(ms)) == (ms / MinuteMs) * MinuteMs
  {
    UnitCounts(ms);
    var minutes := ms / MinuteMs;
    var hours := minutes / 60;
    ShownPieces(hours, 'h', minutes % 60, 'm');
    assert NatToString(hours) + "h " + NatToString(minutes % 60) + "m"
      == NatToString(hours) + ['h'] + " " + NatToString(minutes % 60) + ['m'];
    assert NatToString(hours) + "h" == NatToString(hours) + ['h'];
    assert hours * HourMs + (minutes % 60) * MinuteMs == minutes * MinuteMs;
  }

  /** Under an hour the whole minutes are shown, and under a minute the
      whole seconds. */
  lemma MinutesAndSeconds(ms: int)
    requires 0 < ms < HourMs
    ensures ms >= MinuteMs ==> ShownMs(FormatTime(ms)) == (ms / MinuteMs) * MinuteMs
    ensures ms < MinuteMs ==> ShownMs(FormatTime(ms)) == (ms / SecondMs) * SecondMs
  {
    UnitCounts(ms);
    var minutes := ms / MinuteMs;
    var seconds := ms / SecondMs;
    ShownPieces(minutes, 'm', 0, 'm');
    assert NatToString(minutes) + "m" == NatToString(minutes) + ['m'];
    ShownPieces(seconds, 's', 0, 's');
    assert NatToString(seconds) + "s" == NatToString(seconds) + ['s'];
  }

  /** The formatted time never rounds up: it stands for the elapsed time
      truncated to its last unit (hours when days are shown, minutes when
      hours or minutes are shown, seconds under a minute). */
  lemma FormatTimeTruncates(ms: int)
    ensures ms <= 0 ==> ShownMs(FormatTime(ms)) == 0
    ensures ms > 0 ==> ShownMs(FormatTime(ms)) <= ms < ShownMs(FormatTime(ms)) + Precision(ms)
  {
    if ms <= 0 {
      ShownPieces(0, 'm', 0, 'm');
      assert FormatTime(ms) == NatToString(0) + ['m'];
    } else if ms >= DayMs {
      TruncatesToHours(ms);
    } else if ms >= HourMs {
      HoursToMinutes(ms);
    } else {
      MinutesAndSeconds(ms);
    }
  }

  /** The unit `formatTime` truncates to. */
  function Precision(ms: int): int {
    if ms >= DayMs then HourMs else if ms >= MinuteMs then MinuteMs else SecondMs
  }

  // ---------------------------------------------------------------------
  // formatFocusTime
  // ---------------------------------------------------------------------

  /** JavaScript's `a % b` for `b > 0`: the remainder takes the sign of `a`. */
  function JsRem(a: int, b: int): (r: int)
    requires b > 0
    ensures a >= 0 ==> r == a % b
    ensures -b < r < b && (a < 0 ==> r <= 0)
  {
    if a >= 0 then a % b else -((-a) % b)
  }

  /** `String(n).padStart(2, '0')`: a negative number keeps its sign and is
      already two characters long. */
  function JsPad2(n: int): (r: string)
    ensures n >= 0 ==> r == Pad2(n)
  {
    if n >= 0 then Pad2(n) else "-" + NatToString(-n)
  }

  /** `formatFocusTime(ms)`: "h:mm:ss" when at least an hour, else "mm:ss". */
  function FormatFocusTime(ms: int): (r: string)
    ensures ms >= 0 ==> AllClockChars(r)
  {
    var totalSeconds := ms / 1000;
    var hours := totalSeconds / 3600;
    var minutes := JsRem(totalSeconds, 3600) / 60;
    var seconds := JsRem(totalSeconds, 60);
    if hours > 0 then NatToString(hours) + ":" + JsPad2(minutes) + ":" + JsPad2(seconds)
    else JsPad2(minutes) + ":" + JsPad2(seconds)
  }

  /** Digits and colons only. */
  predicate AllClockChars(s: string) {
    forall k :: 0 <= k < |s| ==> IsDigit(s[k]) || s[k] == ':'
  }

  /** Reads "h:mm:ss" or "mm:ss" back as a number of seconds. */
  function ClockSeconds(s: string): int {
    var f := Fields(s, ':');
    if |f| == 3 && AllDigits(f[0]) && AllDigits(f[1]) && AllDigits(f[2]) then
      ParseNat(f[0]) * 3600 + ParseNat(f[1]) * 60 + ParseNat(f[2])
    else if |f| == 2 && AllDigits(f[0]) && AllDigits(f[1]) then
      ParseNat(f[0]) * 60 + ParseNat(f[1])
    else 0
  }

  /** "mm:ss" reads back as minutes and seconds. */
  lemma ClockTwoFields(m: nat, s: nat)
    ensures Fields(Pad2(m) + ":" + Pad2(s), ':') == [Pad2(m), Pad2(s)]
    ensures ClockSeconds(Pad2(m) + ":" + Pad2(s)) == m * 60 + s
  {
    var a, b := Pad2(m), Pad2(s);
    DigitsExclude(a, ':');
    DigitsExclude(b, ':');
    FieldsWhole(b, ':');
    FieldsJoin(a, b, ':');
    assert a + ":" + b == a + [':'] + b;
  }

  /** "h:mm:ss" reads back as hours, minutes and seconds. */
  lemma ClockThreeFields(h: nat, m: nat, s: nat)
    ensures |Fields(NatToString(h) + ":" + Pad2(m) + ":" + Pad2(s), ':')| == 3
    ensures ClockSeconds(NatToString(h) + ":" + Pad2(m) + ":" + Pad2(s)) == h * 3600 + m * 60 + s
  {
    var a, b, c := NatToString(h), Pad2(m), Pad2(s);
    ClockTwoFields(m, s);
    DigitsExclude(a, ':');
    ParseNatToString(h);
    FieldsJoin(a, b + ":" + c, ':');
    assert a + ":" + b + ":" + c == a + [':'] + (b + ":" + c);
  }

  /** Reading a formatted focus time back gives its whole seconds; the
      hours field is there exactly from one hour on. */
  lemma FocusTimeRoundTrip(ms: int)
    requires ms >= 0
    ensures ClockSeconds(FormatFocusTime(ms)) == ms / 1000
    ensures |Fields(FormatFocusTime(ms), ':')| == (if ms >= HourMs then 3 else 2)
  {
    var ts := ms / 1000;
    var hours, minutes, seconds := ts / 3600, (ts % 3600) / 60, ts % 60;
    ClockUnits(ts);
    assert hours > 0 <==> ms >= HourMs;
    assert JsRem(ts, 3600) == ts % 3600 && JsRem(ts, 60) == seconds;
    if hours > 0 {
      assert FormatFocusTime(ms) == NatToString(hours) + ":" + Pad2(minutes) + ":" + Pad2(seconds);
      ClockThreeFields(hours, minutes, seconds);
    } else {
      assert FormatFocusTime(ms) == Pad2(minutes) + ":" + Pad2(seconds);
      ClockTwoFields(minutes, seconds);
    }
  }

  /** Whole hours, the minutes of the last hour and the seconds of the last
      minute make up the seconds again. */
  lemma ClockUnits(ts: nat)
    ensures ts == (ts / 3600) * 3600 + ((ts % 3600) / 60) * 60 + ts % 60
  {
    var rest := ts % 3600;
    assert ts == (ts / 3600) * 3600 + rest;
    assert rest == (rest / 60) * 60 + rest % 60;
    assert ts == (ts / 3600 * 60 + rest / 60) * 60 + rest % 60;
    assert rest % 60 == ts % 60;
  }

  // ---------------------------------------------------------------------
  // Tomatoes
  // ---------------------------------------------------------------------

  /** Milliseconds in one 25-minute pomodoro. */
  const PomodoroMs: int := 25 * 60 * 1000

  /** `getTomatoCount(ms)`: the whole pomodoros in a span, rounded down. */
  function GetTomatoCount(ms: int): (r: int)
    ensures r * PomodoroMs <= ms < (r + 1) * PomodoroMs
    ensures ms >= 0 ==> r >= 0
  {
    ms / PomodoroMs
  }

  /** The tomato emoji, U+1F345. */
  const Tomato: string := "\U{1F345}"

  /** The tomato literal as stored in `formatTomatoes`: the UTF-8 bytes of
      the emoji read back as Windows-1252, three characters. */
  const StoredTomato: string := "\U{F0}\U{178}\U{2026}"

  /** `s` holds a copy of `glyph` in its `i`-th glyph-wide slot. */
  predicate CopyAt(s: string, glyph: string, i: nat) {
    (i + 1) * |glyph| <= |s| && s[i * |glyph|..(i + 1) * |glyph|] == glyph
  }

  /** `glyph.repeat(n)`. */
  function Repeat(glyph: string, n: nat): (r: string)
    ensures |r| == n * |glyph|
    ensures n > 0 ==> r[..|glyph|] == glyph
  {
    if n == 0 then [] else glyph + Repeat(glyph, n - 1)
  }

  /** `glyph.repeat(n)` is `n` copies of the glyph, slot after slot. */
  lemma {:induction false} RepeatCopies(glyph: string, n: nat)
    ensures forall i :: 0 <= i < n ==> CopyAt(Repeat(glyph, n), glyph, i)
    decreases n
  {
    if n > 0 {
      var r, rest := Repeat(glyph, n), Repeat(glyph, n - 1);
      RepeatCopies(glyph, n - 1);
      forall i | 0 <= i < n
        ensures CopyAt(r, glyph, i)
      {
        if i > 0 {
          var g := |glyph|;
          assert CopyAt(rest, glyph, i - 1);
          assert (i - 1) * g + g == i * g && i * g + g == (i + 1) * g;
          assert r[i * g..(i + 1) * g] == rest[(i - 1) * g..i * g];
        }
      }
    }
  }

  /** `formatTomatoes(count)` drawn with `glyph`: nothing for zero, up to
      four glyphs, else one glyph and " x<count>"; `repeat` of a negative
      count throws, which is `None`. */
  function TomatoesWith(glyph: string, count: int): (r: Option<string>)
    ensures r.None? <==> count < 0
  {
    if count == 0 then Some("")
    else if count <= 4 then (if count < 0 then None else Some(Repeat(glyph, count)))
    else Some(glyph + " x" + NatToString(count))
  }

  /** The number of copies of `glyph` a text starts with. */
  function CountGlyphs(s: string, glyph: string): nat
    requires |glyph| > 0
    decreases |s|
  {
    if |s| < |glyph| || s[..|glyph|] != glyph then 0 else 1 + CountGlyphs(s[|glyph|..], glyph)
  }

  /** Counts the tomatoes in a formatted text: the number after a glyph and
      " x", else the number of glyphs the text starts with. */
  function ReadTomatoes(s: string, glyph: string): int
    requires |glyph| > 0
  {
    var n := |glyph|;
    if |s| > n + 2 && s[..n] == glyph && s[n..n + 2] == " x" && AllDigits(s[n + 2..]) then ParseNat(s[n + 2..])
    else CountGlyphs(s, glyph)
  }

  /** Repeated glyphs count back. */
  lemma {:induction false} CountRepeat(glyph: string, c: nat)
    requires |glyph| > 0
    ensures CountGlyphs(Repeat(glyph, c), glyph) == c
    decreases c
  {
    if c > 0 {
      var s := Repeat(glyph, c);
      assert s[..|glyph|] == glyph;
      assert s[|glyph|..] == Repeat(glyph, c - 1);
      CountRepeat(glyph, c - 1);
    }
  }

  /** Reading the tomato text back gives the count, for any glyph that does
      not start with a space. */
  lemma {:induction false} TomatoesRoundTrip(glyph: string, count: int)
    requires |glyph| > 0 && glyph[0] != ' '
    requires count >= 0
    ensures ReadTomatoes(TomatoesWith(glyph, count).value, glyph) == count
  {
    if 0 < count <= 4 {
      RepeatedTomatoes(glyph, count);
    } else if count > 4 {
      var n := |glyph|;
      var s := glyph + " x" + NatToString(count);
      assert s[..n] == glyph;
      assert s[n..n + 2] == " x";
      assert s[n + 2..] == NatToString(count);
      ParseNatToString(count);
    }
  }

  /** A text of repeated glyphs is read by counting them: after the first
      glyph comes another glyph, never " x". */
  lemma RepeatedTomatoes(glyph: string, count: nat)
    requires |glyph| > 0 && glyph[0] != ' '
    requires count > 0
    ensures ReadTomatoes(Repeat(glyph, count), glyph) == count
  {
    var n := |glyph|;
    var s := Repeat(glyph, count);
    CountRepeat(glyph, count);
    if |s| > n + 2 {
      var rest := Repeat(glyph, count - 1);
      assert s == glyph + rest;
      assert |rest| > 0 && rest[..n] == glyph;
      assert s[n] == rest[0] == glyph[0];
      assert s[n..n + 2] != " x";
    }
  }

  /** Every character of `glyph.repeat(n)` is a character of the glyph. */
  lemma {:induction false} RepeatChars(glyph: string, n: nat)
    ensures forall k :: 0 <= k < |Repeat(glyph, n)| ==> Repeat(glyph, n)[k] in glyph
    decreases n
  {
    if n > 0 {
      RepeatChars(glyph, n - 1);
      var r, rest := Repeat(glyph, n), Repeat(glyph, n - 1);
      assert r == glyph + rest;
      forall k | 0 <= k < |r|
        ensures r[k] in glyph
      {
        if k >= |glyph| {
          assert r[k] == rest[k - |glyph|];
        }
      }
    }
  }

  /** `formatTomatoes` as written, with the mis-encoded literal: its text
      reads back only against that literal, and one tomato is the literal
      itself. */
  function FormatTomatoesAsWritten(count: int): (r: Option<string>)
    ensures r.None? <==> count < 0
    ensures count >= 0 ==> ReadTomatoes(r.value, StoredTomato) == count
    ensures count == 1 ==> r == Some(StoredTomato)
  {
    if count >= 0 then
      TomatoesRoundTrip(StoredTomato, count);
      assert Repeat(StoredTomato, 1) == StoredTomato + Repeat(StoredTomato, 0) == StoredTomato;
      TomatoesWith(StoredTomato, count)
    else TomatoesWith(StoredTomato, count)
  }

  /** `formatTomatoes` drawing the tomato emoji, as the pomodoro display
      does: the text reads back as the count, and up to four tomatoes it is
      that many emoji. */
  function FormatTomatoes(count: int): (r: Option<string>)
    ensures r.None? <==> count < 0
    ensures count >= 0 ==> ReadTomatoes(r.value, Tomato) == count
    ensures 0 < count <= 4 ==> r.value == Repeat(Tomato, count)
  {
    if count >= 0 then
      TomatoesRoundTrip(Tomato, count);
      TomatoesWith(Tomato, count)
    else TomatoesWith(Tomato, count)
  }

  /** As written, no count above zero draws a single tomato emoji: the text
      differs from the corrected one, reads as zero tomatoes, and holds no
      tomato emoji at all. */
  lemma StoredTomatoIsNotTomato(count: int)
    requires count > 0
    ensures FormatTomatoesAsWritten(count).Some? && FormatTomatoes(count).Some?
    ensures FormatTomatoesAsWritten(count).value != FormatTomatoes(count).value
    ensures ReadTomatoes(FormatTomatoesAsWritten(count).value, Tomato) == 0
    ensures forall k :: 0 <= k < |FormatTomatoesAsWritten(count).value| ==>
                FormatTomatoesAsWritten(count).value[k] != '\U{1F345}'
    ensures |StoredTomato| == 3 && |Tomato| == 1
  {
    var s, t := FormatTomatoesAsWritten(count).value, FormatTomatoes(count).value;
    if count <= 4 {
      assert s == Repeat(StoredTomato, count);
      assert s == StoredTomato + Repeat(StoredTomato, count - 1);
      assert t == Tomato + Repeat(Tomato, count - 1);
      RepeatChars(StoredTomato, count);
    } else {
      var digits := NatToString(count);
      assert s == StoredTomato + " x" + digits;
      assert t == Tomato + " x" + digits;
      forall k | 0 <= k < |s|
        ensures s[k] != '\U{1F345}'
      {
        if k >= 5 {
          assert s[k] == digits[k - 5];
          assert IsDigit(digits[k - 5]);
        }
      }
    }
    assert s[0] == StoredTomato[0] != Tomato[0] == t[0];
    assert s[..1] != Tomato;
  }

  // ---------------------------------------------------------------------
  // Task duration
  // ---------------------------------------------------------------------

  /** `calculateTaskDuration(task)`: completion minus start when both are
      recorded, else 0. */
  function CalculateTaskDuration(t: Task): (r: int)
    ensures t.startedAt.None? || t.completedAt.None? ==> r == 0
    ensures t.startedAt.Some? && t.completedAt.Some? ==> t.startedAt.value + r == t.completedAt.value
  {
    if t.startedAt.None? || t.completedAt.None? then 0
    else t.completedAt.value - t.startedAt.value
  }

  /** No handler records a start time: a new task has none and status
      changes keep it, so every duration the handlers produce is 0. */
  lemma DurationStaysZero(id: string, title: string, url: string, notes: string, tags: seq<string>,
                          st: Status, cur: string, now: int, moves: seq<(Status, int)>)
    ensures CalculateTaskDuration(Moves(NewTask(id, title, url, notes, tags, st, cur, now), moves)) == 0
  {
    MovesKeepStart(NewTask(id, title, url, notes, tags, st, cur, now), moves);
  }

  /** A task after a series of status changes, each at its own instant. */
  function Moves(t: Task, moves: seq<(Status, int)>): Task
    decreases |moves|
  {
    if moves == [] then t else Moves(WithStatus(t, moves[0].0, moves[0].1), moves[1..])
  }

  /** Status changes never touch the start time. */
  lemma {:induction false} MovesKeepStart(t: Task, moves: seq<(Status, int)>)
    ensures Moves(t, moves).startedAt == t.startedAt
    decreases |moves|
  {
    if moves != [] {
      MovesKeepStart(WithStatus(t, moves[0].0, moves[0].1), moves[1..]);
    }
  }
}
