/** The per-URL task history of the web front end (core/web_app.py:29-165): a day key per
    URL, the check that decides whether an earlier task of the day can be reused, the
    termination of a still-running task, and the page limit a request asks for. */
module WebApp {
  import opened Maybe
  import opened Text

  // ---------------------------------------------------------------------------
  // The two registries

  /** A `TASKS` record, reduced to the fields the history logic reads and writes. */
  datatype Task = Task(url: string, done: bool, terminated: bool)

  /** A `URL_HISTORY` record. A missing or `None` task id is the empty string, which is
      what makes `if task_id` false; a record without files has an empty `files` map. */
  datatype Entry = Entry(taskId: string, status: string, timestamp: real, files: map<string, string>, url: string)

  /** `get_url_hash(url)` on the day `day` (`time.strftime('%Y%m%d')`). The MD5 digest is
      taken as the identity on `url_day`. */
  function DayKey(url: string, day: string): string {
    url + "_" + day
  }

  /** Two day keys with days of the same length are equal only for the same URL and day. */
  lemma DayKeyInjective(u1: string, d1: string, u2: string, d2: string)
    requires |d1| == |d2| && DayKey(u1, d1) == DayKey(u2, d2)
    ensures u1 == u2 && d1 == d2
  {
    var k := DayKey(u1, d1);
    assert |u1| == |u2|;
    assert k[..|u1|] == u1 && DayKey(u2, d2)[..|u2|] == u2;
    assert k[|u1| + 1..] == d1 && DayKey(u2, d2)[|u2| + 1..] == d2;
  }

  /** `URL_HISTORY.get(key)`: None for an absent key. */
  function HistoryAt(history: map<string, Entry>, key: string): (r: Option<Entry>)
    ensures r.Some? <==> key in history
    ensures r.Some? ==> r.value == history[key]
  {
    if key in history then Some(history[key]) else None
  }

  // ---------------------------------------------------------------------------
  // `check_url_history`

  /** Why a check answers `not_found`. */
  datatype Reason =
    | NoHistory        // no record for today
    | UrlMismatch      // the recorded task is running for another URL
    | TaskVanished     // the record says running, but its task is gone
    | FailureExpired   // the recorded failure is at least five minutes old
    | ResultMissing    // the recorded docx file is not on disk
    | TaskMissing      // the record names a task that is gone
    | NoResult         // nothing usable, but the record is kept

  /** The `status` of the dictionary `check_url_history` returns, with its payload. */
  datatype Outcome =
    | NotFound(reason: Reason)
    | Running(taskId: string)
    | Failed(taskId: string)
    | Completed(files: map<string, string>, taskId: string)

  /** How long a failed task blocks a new one, in seconds. */
  const FAILURE_COOLDOWN: real := 300.0

  /** `os.path.basename`: the part after the last `/`, which is the whole path when it
      has none. */
  function Basename(path: string): (r: string)
    ensures forall k :: 0 <= k < |r| ==> r[k] != '/'
    ensures |r| <= |path| && r == path[|path| - |r|..]
    ensures |r| == |path| || path[|path| - |r| - 1] == '/'
  {
    if path == [] || path[|path| - 1] == '/' then []
    else
      var b := Basename(path[..|path| - 1]);
      assert path[..|path| - 1][|path| - 1 - |b|..] == path[|path| - 1 - |b|..|path| - 1];
      b + [path[|path| - 1]]
  }

  /** The recorded download path of the docx file, when there is a non-empty one. */
  predicate HasDocx(files: map<string, string>) {
    "docx" in files && files["docx"] != ""
  }

  /** The recorded task is in `TASKS` and not done. */
  predicate Live(h: Entry, tasks: map<string, Task>) {
    h.taskId != "" && h.taskId in tasks && !tasks[h.taskId].done
  }

  /** What `check_url_history(url)` answers, `now` being `time.time()` and `present(name)`
      whether `name` exists in the output directory. */
  function Verdict(entry: Option<Entry>, tasks: map<string, Task>, url: string, now: real,
                   present: string -> bool): Outcome
  {
    if entry.None? then NotFound(NoHistory)
    else
      var h := entry.value;
      if Live(h, tasks) then
        if tasks[h.taskId].url == url then Running(h.taskId) else NotFound(UrlMismatch)
      else if h.status == "running" && (h.taskId == "" || h.taskId !in tasks) then NotFound(TaskVanished)
      else if h.status == "failed" then
        if now - h.timestamp < FAILURE_COOLDOWN then Failed(h.taskId) else NotFound(FailureExpired)
      else if HasDocx(h.files) then
        if present(Basename(h.files["docx"])) then Completed(h.files, h.taskId) else NotFound(ResultMissing)
      else if h.taskId != "" && h.taskId !in tasks then NotFound(TaskMissing)
      else NotFound(NoResult)
  }

  /** The answers after which the record is deleted. */
  predicate Drops(o: Outcome) {
    o.NotFound? && o.reason != NoHistory && o.reason != NoResult
  }

  /** A check answers `running` exactly when the recorded task is live for the same URL. */
  lemma RunningExactly(entry: Option<Entry>, tasks: map<string, Task>, url: string, now: real,
                       present: string -> bool, tid: string)
    ensures Verdict(entry, tasks, url, now, present) == Running(tid)
      <==> entry.Some? && entry.value.taskId == tid && Live(entry.value, tasks) && tasks[tid].url == url
  {
  }

  /** A check answers `completed` exactly when no live task and no running or failed
      status comes first and the recorded docx file is on disk; the files are the record's. */
  lemma CompletedExactly(entry: Option<Entry>, tasks: map<string, Task>, url: string, now: real,
                         present: string -> bool)
    ensures Verdict(entry, tasks, url, now, present).Completed?
      <==> && entry.Some? && !Live(entry.value, tasks)
           && !(entry.value.status == "running" && (entry.value.taskId == "" || entry.value.taskId !in tasks))
           && entry.value.status != "failed"
           && HasDocx(entry.value.files) && present(Basename(entry.value.files["docx"]))
    ensures Verdict(entry, tasks, url, now, present).Completed? ==>
      Verdict(entry, tasks, url, now, present).files == entry.value.files
  {
  }

  /** A check answers `failed` exactly when no live task and no running record of a
      vanished task comes first, the record says `failed` and the failure is under five
      minutes old; the task id is the record's. */
  lemma FailedExactly(entry: Option<Entry>, tasks: map<string, Task>, url: string, now: real,
                      present: string -> bool, tid: string)
    ensures Verdict(entry, tasks, url, now, present) == Failed(tid)
      <==> && entry.Some? && !Live(entry.value, tasks)
           && !(entry.value.status == "running" && (entry.value.taskId == "" || entry.value.taskId !in tasks))
           && entry.value.status == "failed" && now - entry.value.timestamp < FAILURE_COOLDOWN
           && entry.value.taskId == tid
  {
  }

  /** A failure blocks new tasks for five minutes and never again after that. */
  lemma FailureWindow(h: Entry, tasks: map<string, Task>, url: string, now: real, later: real,
                      present: string -> bool)
    requires now <= later
    requires Verdict(Some(h), tasks, url, now, present) == NotFound(FailureExpired)
    ensures Verdict(Some(h), tasks, url, later, present) == NotFound(FailureExpired)
  {
  }

  /** A task that has been terminated is never reported as running. */
  lemma TerminatedNeverRunning(h: Entry, tasks: map<string, Task>, url: string, now: real,
                               present: string -> bool)
    requires h.taskId in tasks && tasks[h.taskId].done
    ensures !Verdict(Some(h), tasks, url, now, present).Running?
  {
  }

  // ---------------------------------------------------------------------------
  // `terminate_old_task`

  /** A record exists whose task is in `TASKS` and not done. */
  predicate Terminable(entry: Option<Entry>, tasks: map<string, Task>) {
    entry.Some? && Live(entry.value, tasks)
  }

  /** A check that answers `running` names a task that termination would stop; when the
      task is live it is reported running for its own URL and dropped for any other. */
  lemma RunningIsTerminable(entry: Option<Entry>, tasks: map<string, Task>, url: string, now: real,
                            present: string -> bool)
    ensures Verdict(entry, tasks, url, now, present).Running? ==> Terminable(entry, tasks)
    ensures Terminable(entry, tasks) ==>
      Verdict(entry, tasks, url, now, present)
        == if tasks[entry.value.taskId].url == url then Running(entry.value.taskId) else NotFound(UrlMismatch)
  {
  }

  /** The registries of the web front end. */
  class Registry {
    /** `TASKS`: task id to task. */
    var tasks: map<string, Task>
    /** `URL_HISTORY`: day key to record. */
    var history: map<string, Entry>

    constructor()
      ensures tasks == map[] && history == map[]
    {
      tasks := map[];
      history := map[];
    }

    /** `check_url_history(url)` on day `day`: answers `Verdict` and deletes the record of
        this key exactly when the answer says so; `TASKS` and every other key stay as
        they are. */
    method CheckUrlHistory(url: string, day: string, now: real, present: string -> bool)
      returns (r: Outcome)
      modifies this`history
      ensures r == Verdict(HistoryAt(old(history), DayKey(url, day)), tasks, url, now, present)
      ensures history == if Drops(r) then old(history) - {DayKey(url, day)} else old(history)
    {
      var key := DayKey(url, day);
      if key !in history {
        return NotFound(NoHistory);
      }
      var h := history[key];
      var tid := h.taskId;
      if tid != "" && tid in tasks {
        var task := tasks[tid];
        if !task.done {
          if task.url == url {
            return Running(tid);
          }
          history := history - {key};
          return NotFound(UrlMismatch);
        }
      }
      if h.status == "running" && (tid == "" || tid !in tasks) {
        history := history - {key};
        return NotFound(TaskVanished);
      }
      if h.status == "failed" {
        if now - h.timestamp < FAILURE_COOLDOWN {
          return Failed(tid);
        }
        history := history - {key};
        return NotFound(FailureExpired);
      }
      if "docx" in h.files && h.files["docx"] != "" {
        if present(Basename(h.files["docx"])) {
          return Completed(h.files, tid);
        }
        history := history - {key};
        return NotFound(ResultMissing);
      }
      if tid != "" && tid !in tasks {
        history := history - {key};
        return NotFound(TaskMissing);
      }
      return NotFound(NoResult);
    }

    /** `terminate_old_task(url)` on day `day`: stops the live task of the record, marking
        it terminated and done, and deletes the record; otherwise changes nothing. */
    method TerminateOldTask(url: string, day: string) returns (ok: bool)
      modifies this`tasks, this`history
      ensures var entry := HistoryAt(old(history), DayKey(url, day));
        && (ok <==> Terminable(entry, old(tasks)))
        && (ok ==>
              && tasks == old(tasks)[entry.value.taskId := old(tasks)[entry.value.taskId].(terminated := true, done := true)]
              && history == old(history) - {DayKey(url, day)})
        && (!ok ==> tasks == old(tasks) && history == old(history))
    {
      var key := DayKey(url, day);
      if key !in history {
        return false;
      }
      var tid := history[key].taskId;
      if tid != "" && tid in tasks {
        var task := tasks[tid];
        if !task.done {
          tasks := tasks[tid := task.(terminated := true, done := true)];
          history := history - {key};
          return true;
        }
      }
      return false;
    }
  }

  /** After a record is dropped, the next check of the same key finds no history and
      drops nothing; a check that keeps its record answers the same when repeated. */
  lemma CheckSettles(history: map<string, Entry>, tasks: map<string, Task>, url: string, day: string,
                     now: real, present: string -> bool)
    ensures var key := DayKey(url, day);
      var r := Verdict(HistoryAt(history, key), tasks, url, now, present);
      var history' := if Drops(r) then history - {key} else history;
      var r' := Verdict(HistoryAt(history', key), tasks, url, now, present);
      && (Drops(r) ==> r' == NotFound(NoHistory))
      && (!Drops(r) ==> r' == r)
      && !Drops(r')
  {
  }

  /** After a termination, the old task is done and its record is gone: the next check of
      the URL finds no history, and no other record can show that task running. */
  lemma TerminationSettles(history: map<string, Entry>, tasks: map<string, Task>, url: string, day: string,
                           now: real, present: string -> bool, other: Entry)
    requires Terminable(HistoryAt(history, DayKey(url, day)), tasks)
    requires other.taskId == history[DayKey(url, day)].taskId
    ensures var key := DayKey(url, day);
      var tid := history[key].taskId;
      var tasks' := tasks[tid := tasks[tid].(terminated := true, done := true)];
      && Verdict(HistoryAt(history - {key}, key), tasks', url, now, present) == NotFound(NoHistory)
      && !Verdict(Some(other), tasks', url, now, present).Running?
  {
    var key := DayKey(url, day);
    var tid := history[key].taskId;
    var tasks' := tasks[tid := tasks[tid].(terminated := true, done := true)];
    TerminatedNeverRunning(other, tasks', url, now, present);
  }

  // ---------------------------------------------------------------------------
  // The page limit of a request

  /** A JSON number that is a float: finite, or one of `NaN`, `Infinity`, `-Infinity`,
      which Python's JSON reader also accepts. */
  datatype Float = Finite(x: real) | NonFinite

  /** The `max_pages` value of the request body, as the JSON reader delivers it. */
  datatype ClientValue =
    | Null
    | Bool(b: bool)
    | Int(i: int)
    | FloatNumber(f: Float)
    | Text(s: string)
    | Other   // a list or an object

  /** `int(x)` on a float: truncation toward zero. */
  function Truncate(x: real): (n: int)
    ensures x >= 0.0 ==> n as real <= x < n as real + 1.0
    ensures x < 0.0 ==> n as real - 1.0 < x <= n as real
  {
    if x >= 0.0 then x.Floor else -((-x).Floor)
  }

  function DigitValue(c: char): nat
    requires IsDigit(c)
  {
    c as int - '0' as int
  }

  function DigitChar(d: nat): (c: char)
    requires d < 10
    ensures IsDigit(c) && DigitValue(c) == d
  {
    ('0' as int + d) as char
  }

  /** The number a string of decimal digits denotes. */
  function DigitsValue(s: string): nat
    requires AllDigits(s)
  {
    if s == [] then 0 else DigitsValue(s[..|s| - 1]) * 10 + DigitValue(s[|s| - 1])
  }

  /** A digit string as Python's integer literal grammar for `int()` allows it: digits,
      with single underscores between them. */
  predicate Grouped(s: string) {
    && s != [] && IsDigit(s[0]) && IsDigit(s[|s| - 1])
    && (forall k :: 0 <= k < |s| ==> IsDigit(s[k]) || s[k] == '_')
    && (forall k :: 0 <= k < |s| - 1 ==> !(s[k] == '_' && s[k + 1] == '_'))
  }

  /** The digits of `s` without its underscores. */
  function WithoutUnderscores(s: string): (r: string)
    ensures (forall k :: 0 <= k < |s| ==> IsDigit(s[k]) || s[k] == '_') ==> AllDigits(r)
    ensures AllDigits(s) ==> r == s
  {
    if s == [] then []
    else (if s[0] == '_' then [] else [s[0]]) + WithoutUnderscores(s[1..])
  }

  /** The digits of a stripped number after its optional sign. */
  function Unsigned(t: string): (r: string)
    ensures |r| <= |t|
  {
    if t != [] && (t[0] == '-' || t[0] == '+') then t[1..] else t
  }

  /** `sys.int_info.default_max_str_digits`: `int()` of a decimal string with more digits
      than this, and `str()` of an integer that needs more, raise `ValueError`. */
  const INT_MAX_STR_DIGITS := 4300

  /** `int(s)` on a string: surrounding whitespace, an optional sign, then grouped
      decimal digits, at most `INT_MAX_STR_DIGITS` of them; None for the `ValueError`. */
  function ParseInt(s: string): Option<int> {
    var t := Strip(s);
    if t == [] || !Grouped(Unsigned(t)) then None
    else
      var digits := WithoutUnderscores(Unsigned(t));
      if |digits| > INT_MAX_STR_DIGITS then None
      else
        var n: int := DigitsValue(digits);
        Some(if t[0] == '-' then -n else n)
  }

  /** `str(n)` for an integer. */
  function Decimal(n: int): (r: string)
    ensures r != []
  {
    if n < 0 then "-" + NatDecimal(-n) else NatDecimal(n)
  }

  function NatDecimal(n: nat): (r: string)
    ensures r != [] && AllDigits(r)
  {
    if n < 10 then [DigitChar(n)] else NatDecimal(n / 10) + [DigitChar(n % 10)]
  }

  lemma {:induction false} NatDecimalValue(n: nat)
    ensures DigitsValue(NatDecimal(n)) == n
  {
    if n >= 10 {
      var s := NatDecimal(n);
      NatDecimalValue(n / 10);
      assert s[..|s| - 1] == NatDecimal(n / 10);
    }
  }

  lemma AllDigitsGrouped(s: string)
    requires s != [] && AllDigits(s)
    ensures Grouped(s)
  {
  }

  /** `str(n)` is stripped already, and its digits follow an optional minus sign. */
  lemma DecimalShape(n: int)
    ensures Trimmed(Decimal(n))
    ensures Decimal(n)[0] == '-' <==> n < 0
    ensures Unsigned(Decimal(n)) == NatDecimal(if n < 0 then -n else n)
  {
    var digits := NatDecimal(if n < 0 then -n else n);
    var s := Decimal(n);
    assert IsDigit(digits[0]) && IsDigit(digits[|digits| - 1]);
    if n < 0 {
      assert s[1..] == digits;
      assert s[|s| - 1] == digits[|digits| - 1];
    }
  }

  /** `int()` of a stripped, signed digit string: its value, or the `ValueError` when it
      has more than `INT_MAX_STR_DIGITS` digits. */
  lemma ParseTrimmed(t: string)
    requires t != [] && Trimmed(t) && AllDigits(Unsigned(t)) && Unsigned(t) != []
    ensures ParseInt(t) == if |Unsigned(t)| > INT_MAX_STR_DIGITS then None
      else Some(if t[0] == '-' then 0 - DigitsValue(Unsigned(t)) else DigitsValue(Unsigned(t)))
  {
    StripTrimmed(t);
    AllDigitsGrouped(Unsigned(t));
  }

  /** `int(str(n)) == n` for every integer `str()` renders, that is one of at most
      `INT_MAX_STR_DIGITS` digits; the parser refuses the longer renderings. */
  lemma ParseDecimal(n: int)
    ensures ParseInt(Decimal(n)) == if |NatDecimal(if n < 0 then -n else n)| <= INT_MAX_STR_DIGITS then Some(n) else None
  {
    DecimalShape(n);
    ParseTrimmed(Decimal(n));
    NatDecimalValue(if n < 0 then -n else n);
  }

  /** `int(v)`: None for the `TypeError`, `ValueError` or `OverflowError` it raises. */
  function IntOf(v: ClientValue): (r: Option<int>)
    ensures v.Int? ==> r == Some(v.i)
    ensures v.Bool? ==> r == Some(if v.b then 1 else 0)
    ensures v.Null? || v.Other? || v == FloatNumber(NonFinite) ==> r.None?
  {
    match v
    case Null => None
    case Bool(b) => Some(if b then 1 else 0)
    case Int(i) => Some(i)
    case FloatNumber(f) => if f.Finite? then Some(Truncate(f.x)) else None
    case Text(s) => ParseInt(s)
    case Other => None
  }

  /** The page limit `run_task` passes to the crawl: the client's value when `int()` of it
      is positive, `DEFAULT_MAX_PAGES` (`fallback`) otherwise. */
  function EffectiveMaxPages(client: ClientValue, fallback: int): (r: int)
  {
    if client.Null? then fallback
    else
      var mp := IntOf(client);
      if mp.Some? && mp.value > 0 then mp.value else fallback
  }

  /** The limit is the client's number exactly when that parses to a positive integer. */
  lemma EffectiveMaxPagesChoice(client: ClientValue, fallback: int)
    ensures var r := EffectiveMaxPages(client, fallback);
      && (IntOf(client).Some? && IntOf(client).value > 0 ==> r == IntOf(client).value)
      && (IntOf(client).None? || IntOf(client).value <= 0 ==> r == fallback)
      && (fallback > 0 ==> r > 0)
  {
  }

  /** A positive number sent as digits or as a JSON number is taken; zero, negatives and
      digit strings over `INT_MAX_STR_DIGITS` digits, which `int()` rejects, fall back. */
  lemma EffectiveMaxPagesOfText(n: int, fallback: int)
    ensures EffectiveMaxPages(Text(Decimal(n)), fallback) ==
      if n > 0 && |NatDecimal(n)| <= INT_MAX_STR_DIGITS then n else fallback
    ensures EffectiveMaxPages(Int(n), fallback) == if n > 0 then n else fallback
  {
    ParseDecimal(n);
  }

  /** A string of decimal digits, leading zeros and all, is taken by its value when
      that is positive and it has at most `INT_MAX_STR_DIGITS` digits; otherwise the
      limit falls back. */
  lemma EffectiveMaxPagesOfDigits(d: string, fallback: int)
    requires d != [] && AllDigits(d)
    ensures EffectiveMaxPages(Text(d), fallback) ==
      if |d| <= INT_MAX_STR_DIGITS && DigitsValue(d) > 0 then DigitsValue(d) else fallback
  {
    assert IsDigit(d[0]) && IsDigit(d[|d| - 1]);
    ParseTrimmed(d);
  }

  /** A float is truncated toward zero, so `0.5` falls back and `2.9` gives 2. */
  lemma EffectiveMaxPagesOfFloat(x: real, fallback: int)
    ensures EffectiveMaxPages(FloatNumber(Finite(x)), fallback)
      == if x >= 1.0 then Truncate(x) else fallback
  {
  }
}
