/**
 * The apply step of flairsync.py's `main`: the change list, the loop that
 * posts it 100 rows at a time, and `summarize_batch_result`, which reads
 * the per-row results of one post. The post itself (`flaircsv`) is a
 * parameter: a function from the rows sent to the result list returned.
 */
module BatchApply {
  import opened FlairSync

  /** The most rows one `flaircsv` call carries. */
  const BatchLimit: nat := 100

  /**
   * One result dictionary of `flaircsv`. The `errors` and `warnings` dicts
   * are their `(field, message)` items in the dict's iteration order.
   */
  datatype ResultEntry = ResultEntry(ok: bool, status: string,
                                     errors: seq<(string, string)>, warnings: seq<(string, string)>)

  /** A skipped entry: its position in the zip, the line paired with it, and its error messages. */
  datatype ErrorReport = ErrorReport(index: nat, line: FlairRow, messages: seq<string>)

  /** One warning of a committed entry: its position in the zip, the line paired with it, the message. */
  datatype Note = Note(index: nat, line: FlairRow, message: string)

  /** What `summarize_batch_result` reports: the skipped count, the skipped entries, the notes. */
  datatype Summary = Summary(failed: nat, errors: seq<ErrorReport>, notes: seq<Note>)

  /** One pass of the posting loop: the progress range it prints, the rows it posts, its summary. */
  datatype Post = Post(first: nat, last: nat, total: nat, rows: seq<FlairRow>, summary: Summary)

  function Min(a: nat, b: nat): nat {
    if a <= b then a else b
  }

  /** The values of a dict, `itervalues()`. */
  function Messages(items: seq<(string, string)>): (ms: seq<string>)
    ensures |ms| == |items| && forall i :: 0 <= i < |items| ==> ms[i] == items[i].1
  {
    if items == [] then [] else [items[0].1] + Messages(items[1..])
  }

  /** `len([e for e in result if not e['ok']])`. */
  function FailedCount(result: seq<ResultEntry>): nat
  {
    if result == [] then 0
    else FailedCount(result[..|result| - 1]) + (if result[|result| - 1].ok then 0 else 1)
  }

  /** The report for pair `j` of `zip(lines, result)`: one entry when the result was skipped. */
  function ReportAt(lines: seq<FlairRow>, result: seq<ResultEntry>, j: nat): seq<ErrorReport>
    requires j < |lines| && j < |result|
  {
    if !result[j].ok then [ErrorReport(j, lines[j], Messages(result[j].errors))] else []
  }

  /** The skipped entries among the first `k` pairs of `zip(lines, result)`. */
  function ErrorReports(lines: seq<FlairRow>, result: seq<ResultEntry>, k: nat): seq<ErrorReport>
    requires k <= |lines| && k <= |result|
  {
    if k == 0 then [] else ErrorReports(lines, result, k - 1) + ReportAt(lines, result, k - 1)
  }

  /** One note per warning, over the first `n` warnings of the entry at index `j`. */
  function WarningNotes(j: nat, line: FlairRow, warnings: seq<(string, string)>, n: nat): seq<Note>
    requires n <= |warnings|
  {
    if n == 0 then [] else WarningNotes(j, line, warnings, n - 1) + [Note(j, line, warnings[n - 1].1)]
  }

  /** The notes for pair `j` of `zip(lines, result)`: one per warning when the result was committed. */
  function NotesAt(lines: seq<FlairRow>, result: seq<ResultEntry>, j: nat): seq<Note>
    requires j < |lines| && j < |result|
  {
    var e := result[j];
    if e.ok && |e.warnings| > 0 then WarningNotes(j, lines[j], e.warnings, |e.warnings|) else []
  }

  /** The notes for committed entries with warnings among the first `k` pairs of `zip(lines, result)`. */
  function Notes(lines: seq<FlairRow>, result: seq<ResultEntry>, k: nat): seq<Note>
    requires k <= |lines| && k <= |result|
  {
    if k == 0 then [] else Notes(lines, result, k - 1) + NotesAt(lines, result, k - 1)
  }

  /** The report of `summarize_batch_result(lines, result)`; `zip` stops at the shorter list. */
  function Summarize(lines: seq<FlairRow>, result: seq<ResultEntry>): Summary
  {
    var n := Min(|lines|, |result|);
    Summary(FailedCount(result), ErrorReports(lines, result, n), Notes(lines, result, n))
  }

  /** The comprehension `[e for e in result if not e['ok']]`, counted. */
  method CountFailed(result: seq<ResultEntry>) returns (failed: nat)
    ensures failed == FailedCount(result)
  {
    failed := 0;
    var i := 0;
    while i < |result|
      invariant i <= |result| && failed == FailedCount(result[..i])
    {
      assert result[..i + 1][..i] == result[..i];
      if !result[i].ok {
        failed := failed + 1;
      }
      i := i + 1;
    }
    assert result[..|result|] == result;
  }

  /** The first loop over `zip(lines, result)`: the skipped entries, with their lines and errors. */
  method CollectErrors(lines: seq<FlairRow>, result: seq<ResultEntry>, n: nat) returns (errors: seq<ErrorReport>)
    requires n <= |lines| && n <= |result|
    ensures errors == ErrorReports(lines, result, n)
  {
    errors := [];
    var i := 0;
    while i < n
      invariant i <= n && errors == ErrorReports(lines, result, i)
    {
      assert ErrorReports(lines, result, i + 1) == errors + ReportAt(lines, result, i);
      if !result[i].ok {
        errors := errors + [ErrorReport(i, lines[i], Messages(result[i].errors))];
      } else {
        assert errors + ReportAt(lines, result, i) == errors;
      }
      i := i + 1;
    }
  }

  /** The inner loop over `e['warnings'].itervalues()`: one note per warning. */
  method NoteWarnings(j: nat, line: FlairRow, warnings: seq<(string, string)>) returns (notes: seq<Note>)
    ensures notes == WarningNotes(j, line, warnings, |warnings|)
  {
    notes := [];
    var m := 0;
    while m < |warnings|
      invariant m <= |warnings| && notes == WarningNotes(j, line, warnings, m)
    {
      notes := notes + [Note(j, line, warnings[m].1)];
      m := m + 1;
    }
  }

  /** The second loop over `zip(lines, result)`: the warnings of the committed entries. */
  method CollectNotes(lines: seq<FlairRow>, result: seq<ResultEntry>, n: nat) returns (notes: seq<Note>)
    requires n <= |lines| && n <= |result|
    ensures notes == Notes(lines, result, n)
  {
    notes := [];
    var i := 0;
    while i < n
      invariant i <= n && notes == Notes(lines, result, i)
    {
      var e := result[i];
      if e.ok && |e.warnings| > 0 {
        var more := NoteWarnings(i, lines[i], e.warnings);
        notes := notes + more;
      }
      i := i + 1;
    }
  }

  /** `summarize_batch_result`, its printing loops collecting what they would print. */
  method SummarizeBatchResult(lines: seq<FlairRow>, result: seq<ResultEntry>) returns (s: Summary)
    ensures s == Summarize(lines, result)
  {
    var failed := CountFailed(result);
    var n := Min(|lines|, |result|);
    var errors := CollectErrors(lines, result, n);
    var notes := CollectNotes(lines, result, n);
    s := Summary(failed, errors, notes);
  }

  /** The skipped count is the number of result entries that are not ok. */
  lemma {:induction false} FailedCountIsSkipped(result: seq<ResultEntry>)
    ensures FailedCount(result) == |set j | 0 <= j < |result| && !result[j].ok|
  {
    if result != [] {
      var init := result[..|result| - 1];
      FailedCountIsSkipped(init);
      var before := set j | 0 <= j < |init| && !init[j].ok;
      var after := set j | 0 <= j < |result| && !result[j].ok;
      assert forall j :: 0 <= j < |init| ==> init[j] == result[j];
      if result[|result| - 1].ok {
        assert after == before;
      } else {
        assert after == before + {|result| - 1};
      }
    }
  }

  /** Every report is for a skipped entry among the first `k` pairs, with the line zipped with it and its messages. */
  lemma {:induction false} ErrorReportsSound(lines: seq<FlairRow>, result: seq<ResultEntry>, k: nat)
    requires k <= |lines| && k <= |result|
    ensures forall r :: r in ErrorReports(lines, result, k) ==>
      r.index < k && !result[r.index].ok && r.line == lines[r.index] &&
      r.messages == Messages(result[r.index].errors)
  {
    if k > 0 {
      ErrorReportsSound(lines, result, k - 1);
    }
  }

  /** Every skipped entry among the first `k` pairs is reported. */
  lemma {:induction false} ErrorReportsComplete(lines: seq<FlairRow>, result: seq<ResultEntry>, k: nat, j: nat)
    requires k <= |lines| && k <= |result|
    requires j < k && !result[j].ok
    ensures ErrorReport(j, lines[j], Messages(result[j].errors)) in ErrorReports(lines, result, k)
  {
    if j < k - 1 {
      ErrorReportsComplete(lines, result, k - 1, j);
    }
  }

  /** The reports name strictly increasing positions. */
  predicate InOrder(reps: seq<ErrorReport>)
  {
    forall a, b :: 0 <= a < b < |reps| ==> reps[a].index < reps[b].index
  }

  /** Every report names a position below `k`. */
  predicate IndicesBelow(reps: seq<ErrorReport>, k: nat)
  {
    forall a :: 0 <= a < |reps| ==> reps[a].index < k
  }

  lemma InOrderAppend(reps: seq<ErrorReport>, r: ErrorReport)
    requires InOrder(reps) && IndicesBelow(reps, r.index)
    ensures InOrder(reps + [r])
  {
    var longer := reps + [r];
    forall a, b | 0 <= a < b < |longer| ensures longer[a].index < longer[b].index {
      assert longer[a] == reps[a];
      if b < |reps| {
        assert longer[b] == reps[b];
      }
    }
  }

  lemma {:induction false} ErrorReportsBelow(lines: seq<FlairRow>, result: seq<ResultEntry>, k: nat)
    requires k <= |lines| && k <= |result|
    ensures IndicesBelow(ErrorReports(lines, result, k), k)
  {
    if k > 0 {
      ErrorReportsBelow(lines, result, k - 1);
      var prev := ErrorReports(lines, result, k - 1);
      var reps := prev + ReportAt(lines, result, k - 1);
      forall a | 0 <= a < |reps| ensures reps[a].index < k {
        if a < |prev| {
          assert reps[a] == prev[a];
        }
      }
    }
  }

  /** Reports come out in the order of the entries, one per skipped entry. */
  lemma {:induction false} ErrorReportsOrdered(lines: seq<FlairRow>, result: seq<ResultEntry>, k: nat)
    requires k <= |lines| && k <= |result|
    ensures InOrder(ErrorReports(lines, result, k))
  {
    if k > 0 {
      ErrorReportsOrdered(lines, result, k - 1);
      var prev := ErrorReports(lines, result, k - 1);
      if !result[k - 1].ok {
        ErrorReportsBelow(lines, result, k - 1);
        InOrderAppend(prev, ErrorReport(k - 1, lines[k - 1], Messages(result[k - 1].errors)));
      } else {
        assert ErrorReports(lines, result, k) == prev + [];
      }
    }
  }

  /** As many reports as skipped entries among the first `k` results. */
  lemma {:induction false} ErrorReportsCount(lines: seq<FlairRow>, result: seq<ResultEntry>, k: nat)
    requires k <= |lines| && k <= |result|
    ensures |ErrorReports(lines, result, k)| == FailedCount(result[..k])
  {
    if k > 0 {
      ErrorReportsCount(lines, result, k - 1);
      assert result[..k][..k - 1] == result[..k - 1];
    }
  }

  lemma {:induction false} WarningNotesExact(j: nat, line: FlairRow, warnings: seq<(string, string)>, n: nat)
    requires n <= |warnings|
    ensures var ns := WarningNotes(j, line, warnings, n);
      && |ns| == n
      && forall m :: 0 <= m < n ==> ns[m] == Note(j, line, warnings[m].1)
  {
    if n > 0 {
      WarningNotesExact(j, line, warnings, n - 1);
    }
  }

  /**
   * A note that one of the first `k` pairs can produce: a committed entry
   * with warnings, the line zipped with it, and one of its warning messages.
   */
  predicate NoteFits(lines: seq<FlairRow>, result: seq<ResultEntry>, k: nat, n: Note)
    requires k <= |lines| && k <= |result|
  {
    n.index < k && result[n.index].ok && |result[n.index].warnings| > 0 &&
    n.line == lines[n.index] && n.message in Messages(result[n.index].warnings)
  }

  /** Every note of `notes` fits the first `k` pairs. */
  predicate AllFit(lines: seq<FlairRow>, result: seq<ResultEntry>, k: nat, notes: seq<Note>)
    requires k <= |lines| && k <= |result|
  {
    forall n :: n in notes ==> NoteFits(lines, result, k, n)
  }

  lemma FitsJoin(lines: seq<FlairRow>, result: seq<ResultEntry>, k: nat, a: seq<Note>, b: seq<Note>)
    requires k < |lines| && k < |result|
    requires AllFit(lines, result, k, a) && AllFit(lines, result, k + 1, b)
    ensures AllFit(lines, result, k + 1, a + b)
  {
    forall n | n in a + b ensures NoteFits(lines, result, k + 1, n) {
      if n in a {
        assert NoteFits(lines, result, k, n);
      }
    }
  }

  /** The notes of one pair fit that pair. */
  lemma NotesAtSound(lines: seq<FlairRow>, result: seq<ResultEntry>, j: nat)
    requires j < |lines| && j < |result|
    ensures AllFit(lines, result, j + 1, NotesAt(lines, result, j))
  {
    var e := result[j];
    if e.ok && |e.warnings| > 0 {
      var extra := WarningNotes(j, lines[j], e.warnings, |e.warnings|);
      WarningNotesExact(j, lines[j], e.warnings, |e.warnings|);
      var ms := Messages(e.warnings);
      forall n | n in extra
        ensures NoteFits(lines, result, j + 1, n)
      {
        var m :| 0 <= m < |extra| && extra[m] == n;
        assert ms[m] == n.message;
      }
    }
  }

  /** Notes come only from committed entries with warnings among the first `k` pairs. */
  lemma {:induction false} NotesSound(lines: seq<FlairRow>, result: seq<ResultEntry>, k: nat)
    requires k <= |lines| && k <= |result|
    ensures AllFit(lines, result, k, Notes(lines, result, k))
  {
    if k > 0 {
      NotesSound(lines, result, k - 1);
      NotesAtSound(lines, result, k - 1);
      FitsJoin(lines, result, k - 1, Notes(lines, result, k - 1), NotesAt(lines, result, k - 1));
    }
  }

  /** Every warning of every committed entry among the first `k` pairs is noted. */
  lemma {:induction false} NotesComplete(lines: seq<FlairRow>, result: seq<ResultEntry>, k: nat, j: nat, m: nat)
    requires k <= |lines| && k <= |result|
    requires j < k && result[j].ok && m < |result[j].warnings|
    ensures Note(j, lines[j], result[j].warnings[m].1) in Notes(lines, result, k)
  {
    var before := Notes(lines, result, k - 1);
    var here := NotesAt(lines, result, k - 1);
    assert Notes(lines, result, k) == before + here;
    if j < k - 1 {
      NotesComplete(lines, result, k - 1, j, m);
    } else {
      var e := result[j];
      WarningNotesExact(j, lines[j], e.warnings, |e.warnings|);
      assert here[m] == Note(j, lines[j], e.warnings[m].1);
    }
  }

  /** The number of warnings on the committed entries of `result`. */
  function WarningTotal(result: seq<ResultEntry>): nat
  {
    if result == [] then 0
    else
      var e := result[|result| - 1];
      WarningTotal(result[..|result| - 1]) + (if e.ok then |e.warnings| else 0)
  }

  /** One note per warning of every committed entry among the first `k` pairs, repeated messages included. */
  lemma {:induction false} NotesCount(lines: seq<FlairRow>, result: seq<ResultEntry>, k: nat)
    requires k <= |lines| && k <= |result|
    ensures |Notes(lines, result, k)| == WarningTotal(result[..k])
  {
    if k > 0 {
      NotesCount(lines, result, k - 1);
      assert result[..k][..k - 1] == result[..k - 1];
      var e := result[k - 1];
      WarningNotesExact(k - 1, lines[k - 1], e.warnings, |e.warnings|);
    }
  }

  /** The notes name non-decreasing positions. */
  predicate NotesInOrder(notes: seq<Note>)
  {
    forall a, b :: 0 <= a < b < |notes| ==> notes[a].index <= notes[b].index
  }

  lemma NotesInOrderJoin(front: seq<Note>, back: seq<Note>, j: nat)
    requires NotesInOrder(front)
    requires forall a :: 0 <= a < |front| ==> front[a].index <= j
    requires forall b :: 0 <= b < |back| ==> back[b].index == j
    ensures NotesInOrder(front + back)
  {
    var all := front + back;
    forall a, b | 0 <= a < b < |all| ensures all[a].index <= all[b].index {
      if b < |front| {
        assert all[a] == front[a] && all[b] == front[b];
      } else if a < |front| {
        assert all[a] == front[a] && all[b] == back[b - |front|];
      } else {
        assert all[a] == back[a - |front|] && all[b] == back[b - |front|];
      }
    }
  }

  /** Every note among the first `k` pairs names a position below `k`. */
  lemma NotesBelow(lines: seq<FlairRow>, result: seq<ResultEntry>, k: nat)
    requires k <= |lines| && k <= |result|
    ensures forall a :: 0 <= a < |Notes(lines, result, k)| ==> Notes(lines, result, k)[a].index < k
  {
    NotesSound(lines, result, k);
    var ns := Notes(lines, result, k);
    forall a | 0 <= a < |ns| ensures ns[a].index < k {
      assert ns[a] in ns;
      assert NoteFits(lines, result, k, ns[a]);
    }
  }

  /** The notes of pair `j` all name position `j`. */
  lemma NotesAtIndex(lines: seq<FlairRow>, result: seq<ResultEntry>, j: nat)
    requires j < |lines| && j < |result|
    ensures forall b :: 0 <= b < |NotesAt(lines, result, j)| ==> NotesAt(lines, result, j)[b].index == j
  {
    var e := result[j];
    if e.ok && |e.warnings| > 0 {
      WarningNotesExact(j, lines[j], e.warnings, |e.warnings|);
    }
  }

  /** Notes come out in the order of the entries, and all notes of one entry together. */
  lemma {:induction false} NotesOrdered(lines: seq<FlairRow>, result: seq<ResultEntry>, k: nat)
    requires k <= |lines| && k <= |result|
    ensures NotesInOrder(Notes(lines, result, k))
  {
    if k > 0 {
      NotesOrdered(lines, result, k - 1);
      NotesBelow(lines, result, k - 1);
      NotesAtIndex(lines, result, k - 1);
      NotesInOrderJoin(Notes(lines, result, k - 1), NotesAt(lines, result, k - 1), k - 1);
    }
  }

  /** When as many lines as results are given, every skipped entry is reported and none other. */
  lemma SkippedAllReported(lines: seq<FlairRow>, result: seq<ResultEntry>)
    requires |lines| == |result|
    ensures |Summarize(lines, result).errors| == Summarize(lines, result).failed
  {
    ErrorReportsCount(lines, result, |result|);
    assert result[..|result|] == result;
  }

  /** The users a list of rows names. */
  function Users(rows: seq<FlairRow>): set<string>
  {
    set r | r in rows :: r.user
  }

  /** No user appears on two rows. */
  predicate Distinct(rows: seq<FlairRow>)
  {
    forall j, k :: 0 <= j < k < |rows| ==> rows[j].user != rows[k].user
  }

  /** The row sets a user to the flair the modifications give it. */
  predicate Carries(mods: map<string, Flair>, row: FlairRow)
  {
    row.user in mods && mods[row.user] == Flair(row.text, row.css)
  }

  /** The row clears its user's flair. */
  predicate Blank(row: FlairRow)
  {
    row.text == "" && row.css == ""
  }

  /** Appending a row for a user not yet named adds that user and keeps the users distinct. */
  lemma AppendRow(rows: seq<FlairRow>, row: FlairRow)
    requires Distinct(rows) && row.user !in Users(rows)
    ensures Users(rows + [row]) == Users(rows) + {row.user}
    ensures Distinct(rows + [row])
  {
    var longer := rows + [row];
    forall k | 0 <= k < |rows| ensures longer[k] == rows[k] && rows[k] in rows && rows[k].user != row.user {
      assert longer[k] == rows[k];
      assert rows[k] in rows;
    }
    assert forall r :: r in longer <==> r in rows || r == row;
  }

  /** Two lists of rows with distinct users, naming no user in common, concatenate to one. */
  lemma DistinctConcat(front: seq<FlairRow>, back: seq<FlairRow>)
    requires Distinct(front) && Distinct(back) && Users(front) !! Users(back)
    ensures Distinct(front + back)
  {
    var rows := front + back;
    var m := |front|;
    forall j, k | 0 <= j < k < |rows| ensures rows[j].user != rows[k].user {
      if k < m {
        assert rows[j] == front[j] && rows[k] == front[k];
      } else if m <= j {
        assert rows[j] == back[j - m] && rows[k] == back[k - m];
      } else {
        assert rows[j] == front[j] && front[j] in front;
        assert rows[k] == back[k - m] && back[k - m] in back;
        assert front[j].user in Users(front) && back[k - m].user in Users(back);
      }
    }
  }

  /** Every row carries its user's new flair. */
  predicate AllCarry(mods: map<string, Flair>, rows: seq<FlairRow>)
  {
    forall k :: 0 <= k < |rows| ==> Carries(mods, rows[k])
  }

  /** Every row is blank. */
  predicate AllBlank(rows: seq<FlairRow>)
  {
    forall k :: 0 <= k < |rows| ==> Blank(rows[k])
  }

  lemma AppendCarry(mods: map<string, Flair>, rows: seq<FlairRow>, row: FlairRow)
    requires AllCarry(mods, rows) && Carries(mods, row)
    ensures AllCarry(mods, rows + [row])
  {
    var longer := rows + [row];
    forall k | 0 <= k < |longer| ensures Carries(mods, longer[k]) {
      if k < |rows| {
        assert longer[k] == rows[k];
      }
    }
  }

  lemma AppendBlank(rows: seq<FlairRow>, row: FlairRow)
    requires AllBlank(rows) && Blank(row)
    ensures AllBlank(rows + [row])
  {
    var longer := rows + [row];
    forall k | 0 <= k < |longer| ensures Blank(longer[k]) {
      if k < |rows| {
        assert longer[k] == rows[k];
      }
    }
  }

  /** Taking `u` out of the users still to do moves it to the users done. */
  lemma TakeUser(all: set<string>, remaining: set<string>, done: set<string>, u: string)
    requires remaining <= all && done == all - remaining && u in remaining
    ensures remaining - {u} <= all && done + {u} == all - (remaining - {u})
    ensures |remaining - {u}| == |remaining| - 1 && u !in done
  {
  }

  /** `[(u, text, css) for u, (text, css) in modifications]`, in set iteration order. */
  method ModificationRows(mods: map<string, Flair>) returns (rows: seq<FlairRow>)
    ensures |rows| == |mods| && Users(rows) == mods.Keys && Distinct(rows)
    ensures forall k :: 0 <= k < |rows| ==> Carries(mods, rows[k])
  {
    rows := [];
    var remaining := mods.Keys;
    while remaining != {}
      invariant remaining <= mods.Keys
      invariant |rows| + |remaining| == |mods.Keys|
      invariant Users(rows) == mods.Keys - remaining
      invariant AllCarry(mods, rows) && Distinct(rows)
      decreases |remaining|
    {
      var u :| u in remaining;
      var row := FlairRow(u, mods[u].text, mods[u].css);
      TakeUser(mods.Keys, remaining, Users(rows), u);
      AppendRow(rows, row);
      AppendCarry(mods, rows, row);
      rows := rows + [row];
      remaining := remaining - {u};
    }
    assert AllCarry(mods, rows);
  }

  /** `[(u, '', '') for u in deletions]`, in set iteration order. */
  method DeletionRows(deletions: set<string>) returns (rows: seq<FlairRow>)
    ensures |rows| == |deletions| && Users(rows) == deletions && Distinct(rows)
    ensures forall k :: 0 <= k < |rows| ==> Blank(rows[k])
  {
    rows := [];
    var remaining := deletions;
    while remaining != {}
      invariant remaining <= deletions
      invariant |rows| + |remaining| == |deletions|
      invariant Users(rows) == deletions - remaining
      invariant AllBlank(rows) && Distinct(rows)
      decreases |remaining|
    {
      var u :| u in remaining;
      var row := FlairRow(u, "", "");
      TakeUser(deletions, remaining, Users(rows), u);
      AppendRow(rows, row);
      AppendBlank(rows, row);
      rows := rows + [row];
      remaining := remaining - {u};
    }
    assert AllBlank(rows);
  }

  /**
   * `modifications + [(u, '', '') for u in deletions]`: every modification
   * with its value, then every deletion with both fields blank, each user
   * taken once, in the arbitrary order of iterating a set.
   */
  method NewFlair(d: Diff<string, Flair>) returns (rows: seq<FlairRow>)
    ensures |rows| == |d.modifications| + |d.deletions|
    ensures Users(rows[..|d.modifications|]) == d.modifications.Keys
    ensures Distinct(rows[..|d.modifications|])
    ensures forall k :: 0 <= k < |d.modifications| ==> Carries(d.modifications, rows[k])
    ensures Users(rows[|d.modifications|..]) == d.deletions
    ensures Distinct(rows[|d.modifications|..])
    ensures forall k :: |d.modifications| <= k < |rows| ==> Blank(rows[k])
    ensures d.modifications.Keys !! d.deletions ==> Distinct(rows)
  {
    var changed := ModificationRows(d.modifications);
    var cleared := DeletionRows(d.deletions);
    rows := changed + cleared;
    var m := |changed|;
    assert rows[..m] == changed;
    assert rows[m..] == cleared;
    forall k | m <= k < |rows| ensures Blank(rows[k]) {
      assert rows[k] == cleared[k - m];
    }
    if d.modifications.Keys !! d.deletions {
      DistinctConcat(changed, cleared);
    }
  }

  /** The rows of the posts, one post after the other. */
  function Posted(posts: seq<Post>): seq<FlairRow>
  {
    if posts == [] then [] else Posted(posts[..|posts| - 1]) + posts[|posts| - 1].rows
  }

  /**
   * Post `k` of the loop: it announces rows `100k + 1` to `min(n, 100k + 100)`
   * of `n`, sends that slice of the change list, a non-empty chunk of at
   * most 100 rows, and summarises the server's answer against the whole list.
   */
  predicate IsPost(newFlair: seq<FlairRow>, flaircsv: seq<FlairRow> -> seq<ResultEntry>, k: nat, post: Post)
  {
    var n := |newFlair|;
    && BatchLimit * k < n
    && post.first == BatchLimit * k + 1
    && post.last == Min(n, BatchLimit * k + BatchLimit)
    && post.total == n
    && post.rows == newFlair[BatchLimit * k .. Min(n, BatchLimit * k + BatchLimit)]
    && 0 < |post.rows| <= BatchLimit
    && post.summary == Summarize(newFlair, flaircsv(post.rows))
  }

  /** Every post is the pass of the loop at its position. */
  predicate AllPosts(newFlair: seq<FlairRow>, flaircsv: seq<FlairRow> -> seq<ResultEntry>, posts: seq<Post>)
  {
    forall k :: 0 <= k < |posts| ==> IsPost(newFlair, flaircsv, k, posts[k])
  }

  lemma AllPostsAppend(newFlair: seq<FlairRow>, flaircsv: seq<FlairRow> -> seq<ResultEntry>, posts: seq<Post>, post: Post)
    requires AllPosts(newFlair, flaircsv, posts) && IsPost(newFlair, flaircsv, |posts|, post)
    ensures AllPosts(newFlair, flaircsv, posts + [post])
  {
    var longer := posts + [post];
    forall k | 0 <= k < |longer| ensures IsPost(newFlair, flaircsv, k, longer[k]) {
      if k < |posts| {
        assert longer[k] == posts[k];
      }
    }
  }

  /** One pass of the loop, for the chunk starting at row `100k`. */
  method PostChunk(newFlair: seq<FlairRow>, flaircsv: seq<FlairRow> -> seq<ResultEntry>, k: nat)
    returns (post: Post)
    requires BatchLimit * k < |newFlair|
    ensures IsPost(newFlair, flaircsv, k, post)
    ensures post.rows == newFlair[BatchLimit * k .. Min(|newFlair|, BatchLimit * k + BatchLimit)]
  {
    var n := |newFlair|;
    var i := BatchLimit * k;
    var end := Min(n, i + BatchLimit);
    var chunk := newFlair[i .. end];
    var result := flaircsv(chunk);
    var summary := SummarizeBatchResult(newFlair, result);
    post := Post(i + 1, end, n, chunk, summary);
  }

  /** The posts of the first passes send the change list up to where the last of them stops. */
  lemma {:induction false} PostedPrefix(newFlair: seq<FlairRow>, flaircsv: seq<FlairRow> -> seq<ResultEntry>, posts: seq<Post>)
    requires AllPosts(newFlair, flaircsv, posts)
    ensures Posted(posts) == newFlair[..Min(|newFlair|, BatchLimit * |posts|)]
  {
    if posts != [] {
      var init := posts[..|posts| - 1];
      assert AllPosts(newFlair, flaircsv, init) by {
        forall k | 0 <= k < |init| ensures IsPost(newFlair, flaircsv, k, init[k]) {
          assert init[k] == posts[k];
        }
      }
      PostedPrefix(newFlair, flaircsv, init);
      var last := posts[|posts| - 1];
      assert IsPost(newFlair, flaircsv, |init|, last);
      SliceJoin(newFlair, BatchLimit * |init|, Min(|newFlair|, BatchLimit * |init| + BatchLimit));
    }
  }

  lemma SliceJoin(s: seq<FlairRow>, i: nat, j: nat)
    requires i <= j <= |s|
    ensures s[..i] + s[i..j] == s[..j]
  {
  }

  /** `len(xrange(0, n, 100))`: `p` passes cover `n` rows exactly when `p` is `n / 100` rounded up. */
  lemma BatchCount(n: nat, p: nat)
    requires BatchLimit * p >= n
    requires p == 0 || BatchLimit * (p - 1) < n
    ensures p == (n + BatchLimit - 1) / BatchLimit
  {
  }

  /**
   * The loop `for i in xrange(0, len(new_flair), 100)` of `main`: each
   * pass prints `i + 1`, `min(n, i + 100)` and `n`, posts
   * `new_flair[i:i+100]` through `flaircsv`, and summarises the result
   * against the whole of `new_flair`, as the source does.
   */
  method PostInBatches(newFlair: seq<FlairRow>, flaircsv: seq<FlairRow> -> seq<ResultEntry>)
    returns (posts: seq<Post>)
    ensures |posts| == (|newFlair| + BatchLimit - 1) / BatchLimit
    ensures forall k :: 0 <= k < |posts| ==> IsPost(newFlair, flaircsv, k, posts[k])
    ensures Posted(posts) == newFlair
  {
    var n := |newFlair|;
    posts := [];
    var i := 0;
    while i < n
      invariant i == BatchLimit * |posts|
      invariant |posts| == 0 || BatchLimit * (|posts| - 1) < n
      invariant AllPosts(newFlair, flaircsv, posts)
    {
      var post := PostChunk(newFlair, flaircsv, |posts|);
      AllPostsAppend(newFlair, flaircsv, posts, post);
      posts := posts + [post];
      i := i + BatchLimit;
    }
    BatchCount(n, |posts|);
    PostedPrefix(newFlair, flaircsv, posts);
    assert newFlair[..n] == newFlair;
  }

  /** A post carries 100 rows, or what is left of the change list when fewer remain. */
  lemma PostSize(newFlair: seq<FlairRow>, flaircsv: seq<FlairRow> -> seq<ResultEntry>, k: nat, post: Post)
    requires IsPost(newFlair, flaircsv, k, post)
    ensures |post.rows| == Min(|newFlair|, BatchLimit * k + BatchLimit) - BatchLimit * k
  {
  }

  /** 250 pending changes go out in three posts, of 100, 100 and 50 rows. */
  method ChunkSizes250(newFlair: seq<FlairRow>, flaircsv: seq<FlairRow> -> seq<ResultEntry>)
    returns (sizes: seq<nat>)
    requires |newFlair| == 250
    ensures sizes == [100, 100, 50]
  {
    var posts := PostInBatches(newFlair, flaircsv);
    PostSize(newFlair, flaircsv, 0, posts[0]);
    PostSize(newFlair, flaircsv, 1, posts[1]);
    PostSize(newFlair, flaircsv, 2, posts[2]);
    sizes := [|posts[0].rows|, |posts[1].rows|, |posts[2].rows|];
  }
}
