/**
 * The status report: the display string of each tag, the table with one
 * row per server record, the fallback rows built from the result list when
 * there are no records, the success counters, and the exit-status rule.
 */
module Report {
  import opened Text
  import opened Tags
  import opened Results

  /** The fixed tag-to-display table of the report. */
  const StatusMessages: map<string, string> := map[
    RenewSuccess := "✅ 续期成功",
    AlreadyRenewed := "🔄 已经续期过",
    NoRenewButton := "❌ 未找到续期按钮",
    RenewButtonDisabled := "❌ 续期按钮不可用(可能被CF屏蔽)",
    RenewUnknownChanged := "⚠️ 续期页面变化但结果未知",
    RenewNoChange := "⚠️ 续期页面无变化",
    RenewClickError := "💥 点击续期按钮出错",
    RenewError := "💥 续期过程出错",
    StartSuccess := "✅ 启动成功",
    AlreadyStarted := "🔄 已经启动",
    NoStartButton := "❌ 未找到Start按钮",
    StartUnknown := "⚠️ 启动完成但状态未知",
    StartError := "💥 启动过程出错",
    LoginFailed := "❌ 登录失败",
    Error := "💥 运行出错",
    NotRun := "⏸️ 未执行",
    NoAuth := "❌ 无认证信息",
    NoServers := "❌ 无服务器配置",
    Timeout := "⏰ 操作超时",
    Runtime := "💥 运行时错误"]

  /** `status_messages.get(tag, default)`. */
  function MessageOr(tag: string, default: string): string {
    if tag in StatusMessages then StatusMessages[tag] else default
  }

  /**
   * The display string of a table cell: the tag's message, or the `❓ `
   * marker followed by the raw tag. The marker shows exactly when the tag
   * has no message.
   */
  function Display(tag: string): (r: string)
    ensures StartsWith(r, "❓ ") <==> tag !in StatusMessages
    ensures tag !in StatusMessages ==> r[|"❓ "|..] == tag
  {
    assert tag in StatusMessages ==> StatusMessages[tag][0] != '❓';
    MessageOr(tag, "❓ " + tag)
  }

  /** Every tag the automation can record has a message of its own. */
  lemma MessagesCoverTags()
    ensures RenewTags <= StatusMessages.Keys
    ensures StartTags <= StatusMessages.Keys
    ensures {LoginFailed, Error, NotRun, NoAuth, NoServers, Timeout, Runtime} <= StatusMessages.Keys
  {
  }

  /**
   * One row of the table. It ends the line, and it breaks the line earlier
   * only when the identifier or a cell's text holds a line break itself.
   */
  function Row(id: string, s: Status): (r: string)
    ensures |r| > 0 && r[|r| - 1] == '\n'
    ensures '\n' in r[..|r| - 1] <==> '\n' in id || '\n' in Display(s.renew) || '\n' in Display(s.start)
  {
    var line := "| `" + id + "` | " + Display(s.renew) + " | " + Display(s.start) + " |";
    assert '\n' !in "| `" && '\n' !in "` | " && '\n' !in " | " && '\n' !in " |";
    line + "\n"
  }

  /** The rows of the table, one per record, in insertion order. */
  function TableRows(t: ResultTable): (rows: seq<string>)
    requires t.Valid()
    ensures |rows| == |t.keys|
  {
    seq(|t.keys|, i requires 0 <= i < |t.keys| => Row(t.keys[i], t.entries[t.keys[i]]))
  }

  function Concat(lines: seq<string>): string
    decreases |lines|
  {
    if |lines| == 0 then "" else Concat(lines[..|lines| - 1]) + lines[|lines| - 1]
  }

  /** Extending a prefix by one line extends its concatenation by that line. */
  lemma ConcatSnoc(lines: seq<string>, i: nat)
    requires i < |lines|
    ensures Concat(lines[..i]) + lines[i] == Concat(lines[..i + 1])
  {
    assert lines[..i + 1][..i] == lines[..i];
  }

  /**
   * Recording a new server appends exactly its row to the table; recording
   * a known one rewrites its row in place and keeps the row count.
   */
  lemma PutRows(t: ResultTable, k: string, v: Status)
    requires t.Valid()
    ensures k !in t.entries ==> Concat(TableRows(t.Put(k, v))) == Concat(TableRows(t)) + Row(k, v)
    ensures k in t.entries ==> |TableRows(t.Put(k, v))| == |TableRows(t)|
    ensures k in t.entries ==> forall i | 0 <= i < |t.keys| ::
      TableRows(t.Put(k, v))[i] == (if t.keys[i] == k then Row(k, v) else TableRows(t)[i])
  {
    if k !in t.entries {
      var u := t.Put(k, v);
      assert TableRows(u)[..|t.keys|] == TableRows(t);
    }
  }

  /** A fallback row built from one entry of the result list. */
  function ResultRow(result: string): string {
    if ':' in result && !StartsWith(result, "error:") then
      var i := IndexOf(result, ':');
      var id := Strip(result[..i]);
      var status := Strip(result[i + 1..]);
      "| `" + id + "` | " + MessageOr(status, "❓ 未知状态 (" + status + ")") + " | N/A |\n"
    else
      "| 未知 | " + MessageOr(result, "❓ 未知状态 (" + result + ")") + " | N/A |\n"
  }

  /** The failure tags a run can list instead of per-server lines. */
  const RunFailureTags: set<string> := {NoAuth, NoServers, Timeout, Runtime, LoginFailed}

  /**
   * A run-level failure tag is shown as an unknown-server row with its own
   * message: the `error: …` tags hold a colon but are kept whole, and
   * `login_failed` holds none.
   */
  lemma FailureTagRow(result: string)
    requires result in RunFailureTags
    ensures result in StatusMessages
    ensures ResultRow(result) == "| 未知 | " + StatusMessages[result] + " | N/A |\n"
  {
    if result == LoginFailed {
      assert ':' !in result;
    } else {
      assert StartsWith(result, "error:");
    }
  }

  function ResultRows(results: seq<string>): (rows: seq<string>)
    ensures |rows| == |results|
  {
    seq(|results|, i requires 0 <= i < |results| => ResultRow(results[i]))
  }

  /** The number of listed records whose status satisfies `good`. */
  function CountWhere(keys: seq<string>, entries: map<string, Status>, good: Status -> bool): nat
    requires forall i | 0 <= i < |keys| :: keys[i] in entries
    decreases |keys|
  {
    if |keys| == 0 then 0
    else CountWhere(keys[..|keys| - 1], entries, good) + (if good(entries[keys[|keys| - 1]]) then 1 else 0)
  }

  lemma {:induction false} CountWhereBounds(keys: seq<string>, entries: map<string, Status>, good: Status -> bool)
    requires forall i | 0 <= i < |keys| :: keys[i] in entries
    ensures CountWhere(keys, entries, good) <= |keys|
    ensures CountWhere(keys, entries, good) == |keys| <==> forall i | 0 <= i < |keys| :: good(entries[keys[i]])
    decreases |keys|
  {
    if |keys| > 0 {
      var n := |keys| - 1;
      CountWhereBounds(keys[..n], entries, good);
      assert forall i | 0 <= i < n :: keys[..n][i] == keys[i];
    }
  }

  predicate RenewSucceeded(s: Status) {
    s.renew == RenewSuccess || s.renew == AlreadyRenewed
  }

  predicate StartSucceeded(s: Status) {
    s.start == StartSuccess || s.start == AlreadyStarted
  }

  function RenewSuccesses(t: ResultTable): nat
    requires t.Valid()
  {
    CountWhere(t.keys, t.entries, RenewSucceeded)
  }

  function StartSuccesses(t: ResultTable): nat
    requires t.Valid()
  {
    CountWhere(t.keys, t.entries, StartSucceeded)
  }

  /**
   * Each counter is at most the number of records, and reaches it exactly
   * when every record's step succeeded or had already been done.
   */
  lemma CountersBounded(t: ResultTable)
    requires t.Valid()
    ensures RenewSuccesses(t) <= |t.entries| && StartSuccesses(t) <= |t.entries|
    ensures RenewSuccesses(t) == |t.entries| <==> forall k | k in t.entries :: RenewSucceeded(t.entries[k])
    ensures StartSuccesses(t) == |t.entries| <==> forall k | k in t.entries :: StartSucceeded(t.entries[k])
  {
    EntryCount(t);
    CountWhereBounds(t.keys, t.entries, RenewSucceeded);
    CountWhereBounds(t.keys, t.entries, StartSucceeded);
  }

  /** The number a string of decimal digits denotes, most significant first. */
  function DigitsValue(s: string): int
    decreases |s|
  {
    if |s| == 0 then 0 else 10 * DigitsValue(s[..|s| - 1]) + (s[|s| - 1] as int - '0' as int)
  }

  /** The digit character of `d`. */
  function Digit(d: nat): (c: char)
    requires d < 10
    ensures '0' <= c <= '9' && c as int - '0' as int == d
  {
    ('0' as int + d) as char
  }

  /**
   * Decimal rendering of a count, as `str(n)` gives it: a non-empty string
   * of digits that denotes `n`, with a leading zero only for zero itself.
   */
  function NatToString(n: nat): (s: string)
    ensures |s| >= 1
    ensures forall i | 0 <= i < |s| :: '0' <= s[i] <= '9'
    ensures DigitsValue(s) == n
    ensures s[0] == '0' <==> n == 0
    ensures |s| > 1 ==> s[0] != '0'
    decreases n
  {
    if n < 10 then [Digit(n)]
    else
      var front := NatToString(n / 10);
      var s := front + [Digit(n % 10)];
      assert s[..|s| - 1] == front;
      s
  }

  function Header(timestamp: string): string {
    "# Weirdhost 自动续期和启动脚本\n\n"
    + "**最后运行时间**: `" + timestamp + "` (北京时间)\n\n"
    + "**注意**: 此版本已针对CF五秒盾进行优化，增加了等待和检测逻辑\n\n"
    + "## 运行结果\n\n"
    + "| 服务器ID | 续期状态 | 启动状态 |\n"
    + "|----------|----------|----------|\n"
  }

  function Footer(timestamp: string, total: nat, renews: nat, starts: nat): string {
    "\n## 统计信息\n\n"
    + "- 总服务器数: " + NatToString(total) + "\n"
    + "- 成功续期: " + NatToString(renews) + "/" + NatToString(total) + "\n"
    + "- 成功启动: " + NatToString(starts) + "/" + NatToString(total) + "\n"
    + "- 运行时间: " + timestamp + "\n\n"
    + "## CF五秒盾处理说明\n\n"
    + "1. 脚本已增加CF挑战检测功能\n"
    + "2. 检测到CF挑战时会自动等待10-15秒\n"
    + "3. 如果按钮被CF屏蔽，会尝试刷新页面重试\n"
    + "4. 增加了人类行为模拟（延迟、悬停）\n\n"
    + "> 注意：如果续期按钮显示\"不可用(可能被CF屏蔽)\"，通常等待一段时间后重试即可。\n"
    + "> 脚本每天运行一次即可，多次运行不会有额外效果。\n"
  }

  /**
   * The whole report: header, one row per record, the fallback rows when
   * there are no records, and the counters over `total` configured servers.
   */
  function ReadmeContent(timestamp: string, t: ResultTable, results: seq<string>, total: nat): string
    requires t.Valid()
  {
    Header(timestamp)
    + Concat(TableRows(t))
    + (if |t.entries| == 0 then Concat(ResultRows(results)) else "")
    + Footer(timestamp, total, RenewSuccesses(t), StartSuccesses(t))
  }

  /** Every line joined by `Concat` occurs in the joined text. */
  lemma {:induction false} ConcatContains(lines: seq<string>, i: nat)
    requires i < |lines|
    ensures Contains(Concat(lines), lines[i])
    decreases |lines|
  {
    var n := |lines| - 1;
    if i == n {
      ContainsInfix(Concat(lines[..n]), lines[n], "");
      assert Concat(lines[..n]) + lines[n] + "" == Concat(lines);
    } else {
      ConcatContains(lines[..n], i);
      assert lines[..n][i] == lines[i];
      ContainsInFront(Concat(lines[..n]), lines[n], lines[i]);
    }
  }

  /**
   * The report shows the row of every record; when there are no records it
   * shows the fallback row of every result instead. It ends with the
   * statistics over the configured servers.
   */
  lemma ReportShowsRows(timestamp: string, t: ResultTable, results: seq<string>, total: nat)
    requires t.Valid()
    ensures forall k | k in t.entries :: Contains(ReadmeContent(timestamp, t, results, total), Row(k, t.entries[k]))
    ensures |t.entries| == 0 ==> forall i | 0 <= i < |results| ::
      Contains(ReadmeContent(timestamp, t, results, total), ResultRow(results[i]))
    ensures EndsWith(ReadmeContent(timestamp, t, results, total), Footer(timestamp, total, RenewSuccesses(t), StartSuccesses(t)))
  {
    FramedRows(Header(timestamp), t, results, Footer(timestamp, total, RenewSuccesses(t), StartSuccesses(t)));
  }

  /** The rows between any header and footer, as `ReadmeContent` places them. */
  lemma FramedRows(head: string, t: ResultTable, results: seq<string>, foot: string)
    requires t.Valid()
    ensures var content := head + Concat(TableRows(t)) + (if |t.entries| == 0 then Concat(ResultRows(results)) else "") + foot;
      && (forall k | k in t.entries :: Contains(content, Row(k, t.entries[k])))
      && (|t.entries| == 0 ==> forall i | 0 <= i < |results| :: Contains(content, ResultRow(results[i])))
      && EndsWith(content, foot)
  {
    var table := Concat(TableRows(t));
    var fallback := if |t.entries| == 0 then Concat(ResultRows(results)) else "";
    forall k | k in t.entries
      ensures Contains(head + table + fallback + foot, Row(k, t.entries[k]))
    {
      RecordRowShown(t, k, head, fallback, foot);
    }
    if |t.entries| == 0 {
      forall i | 0 <= i < |results|
        ensures Contains(head + table + fallback + foot, ResultRow(results[i]))
      {
        ConcatContains(ResultRows(results), i);
        ContainsInThird(head, table, fallback, foot, ResultRow(results[i]));
      }
    }
    EndsWithLast(head + table + fallback, foot);
  }

  lemma RecordRowShown(t: ResultTable, k: string, head: string, fallback: string, foot: string)
    requires t.Valid() && k in t.entries
    ensures Contains(head + Concat(TableRows(t)) + fallback + foot, Row(k, t.entries[k]))
  {
    var j :| 0 <= j < |t.keys| && t.keys[j] == k;
    ConcatContains(TableRows(t), j);
    ContainsInSecond(head, Concat(TableRows(t)), fallback, foot, Row(k, t.entries[k]));
  }

  lemma ContainsInSecond(a: string, b: string, c: string, d: string, p: string)
    requires Contains(b, p)
    ensures Contains(a + b + c + d, p)
  {
    ContainsInBack(a, b, p);
    ContainsInFront(a + b, c, p);
    ContainsInFront(a + b + c, d, p);
  }

  lemma ContainsInThird(a: string, b: string, c: string, d: string, p: string)
    requires Contains(c, p)
    ensures Contains(a + b + c + d, p)
  {
    ContainsInBack(a + b, c, p);
    ContainsInFront(a + b + c, d, p);
  }

  lemma EndsWithLast(a: string, b: string)
    ensures EndsWith(a + b, b)
  {
    assert (a + b)[|a + b| - |b|..] == b;
  }

  /** The process fails when some result mentions a login failure or an `error:` marker. */
  function ExitStatus(results: seq<string>): (code: int)
    ensures code == 0 || code == 1
    ensures code == 1 <==> exists i | 0 <= i < |results| ::
      Contains(results[i], LoginFailed) || Contains(results[i], "error:")
  {
    if exists i | 0 <= i < |results| :: Contains(results[i], LoginFailed) || Contains(results[i], "error:")
    then 1 else 0
  }
}
