/**
 * The maps flairsync.py reconciles: the desired flair read from the csv
 * file (`flair_from_csv`), the current flair built from the remote listing
 * (`flair_from_reddit`), and the difference between the two (`diff_flair`).
 */
module FlairSync {
  import opened Wrappers
  import Entities
  import RedditClient

  /** A user's flair: its text and css class, `(text, css)` in the source. */
  datatype Flair = Flair(text: string, css: string)

  /** One row of a change list, `(user, text, css)`. */
  datatype FlairRow = FlairRow(user: string, text: string, css: string)

  type FlairMap = map<string, Flair>

  /** A record of the csv file, already split into fields. */
  type CsvRow = seq<string>

  datatype CsvError =
    /** The file has no first row for `f.next()` to skip (StopIteration). */
    | MissingHeader
    /** The record at this index of the file (the header is 0) has fewer than three fields (IndexError). */
    | ShortRow(row: nat)

  /** The filter of `flair_from_csv`: a complete row whose text or css is non-empty. */
  predicate Keeps(r: CsvRow) {
    |r| >= 3 && (r[1] != "" || r[2] != "")
  }

  /** No kept row after index `j` (and before `n`) is for the same user as row `j`. */
  predicate LastKeptFor(data: seq<CsvRow>, j: nat, n: nat)
    requires j < |data| && |data[j]| > 0 && n <= |data|
  {
    forall k :: j < k < n && Keeps(data[k]) ==> data[k][0] != data[j][0]
  }

  /** The first data row from index `i` on that has fewer than three fields. */
  function FirstShortRow(data: seq<CsvRow>, i: nat): (r: Option<nat>)
    requires i <= |data|
    ensures r.Some? ==> i <= r.value < |data| && |data[r.value]| < 3 &&
                        forall k :: i <= k < r.value ==> |data[k]| >= 3
    ensures r.None? ==> forall k :: i <= k < |data| ==> |data[k]| >= 3
    decreases |data| - i
  {
    if i == |data| then None
    else if |data[i]| < 3 then Some(i)
    else FirstShortRow(data, i + 1)
  }

  /** The dict built from the first `n` data rows, later rows overwriting earlier ones. */
  function CsvMap(data: seq<CsvRow>, n: nat): FlairMap
    requires n <= |data|
    requires forall k :: 0 <= k < n ==> |data[k]| >= 3
  {
    if n == 0 then map[]
    else
      var r := data[n - 1];
      var m := CsvMap(data, n - 1);
      if Keeps(r) then m[r[0] := Flair(r[1], r[2])] else m
  }

  /** `flair_from_csv` over the records of the file. */
  function FlairFromCsv(rows: seq<CsvRow>): (r: Result<FlairMap, CsvError>)
    ensures |rows| == 0 ==> r == Failure(MissingHeader)
    ensures r.Success? <==> |rows| > 0 && forall k :: 1 <= k < |rows| ==> |rows[k]| >= 3
    ensures r.Failure? && |rows| > 0 ==>
      && r.error.ShortRow? && 1 <= r.error.row < |rows| && |rows[r.error.row]| < 3
      && forall k :: 1 <= k < r.error.row ==> |rows[k]| >= 3
  {
    if |rows| == 0 then Failure(MissingHeader)
    else
      var data := rows[1..];
      match FirstShortRow(data, 0)
      case Some(j) => Failure(ShortRow(j + 1))
      case None => Success(CsvMap(data, |data|))
  }

  /** The users of the kept rows among the first `n` data rows. */
  function KeptUsers(data: seq<CsvRow>, n: nat): set<string>
    requires n <= |data|
  {
    set j | 0 <= j < n && Keeps(data[j]) :: data[j][0]
  }

  lemma KeptUsersStep(data: seq<CsvRow>, n: nat)
    requires 0 < n <= |data|
    ensures KeptUsers(data, n) == KeptUsers(data, n - 1) + (if Keeps(data[n - 1]) then {data[n - 1][0]} else {})
  {
    var before := KeptUsers(data, n - 1);
    var after := KeptUsers(data, n);
    forall u | u in after ensures u in before || (Keeps(data[n - 1]) && u == data[n - 1][0]) {
      var j :| 0 <= j < n && Keeps(data[j]) && data[j][0] == u;
      if j < n - 1 {
        assert u in before;
      }
    }
    forall u | u in before ensures u in after {
      var j :| 0 <= j < n - 1 && Keeps(data[j]) && data[j][0] == u;
      assert 0 <= j < n && Keeps(data[j]);
    }
    if Keeps(data[n - 1]) {
      assert 0 <= n - 1 < n && Keeps(data[n - 1]);
      assert data[n - 1][0] in after;
    }
  }

  /** The users of the dict are the users of the kept rows. */
  lemma {:induction false} CsvMapKeys(data: seq<CsvRow>, n: nat)
    requires n <= |data|
    requires forall k :: 0 <= k < n ==> |data[k]| >= 3
    ensures CsvMap(data, n).Keys == KeptUsers(data, n)
  {
    if n > 0 {
      CsvMapKeys(data, n - 1);
      KeptUsersStep(data, n);
    }
  }

  /** No entry of the dict has both text and css empty. */
  lemma {:induction false} CsvMapNoBlank(data: seq<CsvRow>, n: nat)
    requires n <= |data|
    requires forall k :: 0 <= k < n ==> |data[k]| >= 3
    ensures forall u :: u in CsvMap(data, n) ==> CsvMap(data, n)[u].text != "" || CsvMap(data, n)[u].css != ""
  {
    if n > 0 {
      CsvMapNoBlank(data, n - 1);
    }
  }

  /** A kept row with no later kept row for its user gives that user's flair. */
  lemma {:induction false} CsvMapLast(data: seq<CsvRow>, n: nat, j: nat)
    requires n <= |data|
    requires forall k :: 0 <= k < n ==> |data[k]| >= 3
    requires j < n && Keeps(data[j]) && LastKeptFor(data, j, n)
    ensures data[j][0] in CsvMap(data, n) && CsvMap(data, n)[data[j][0]] == Flair(data[j][1], data[j][2])
  {
    if j < n - 1 {
      assert LastKeptFor(data, j, n - 1);
      CsvMapLast(data, n - 1, j);
      if Keeps(data[n - 1]) {
        assert data[n - 1][0] != data[j][0];
      }
    }
  }

  /**
   * What `flair_from_csv` builds when the file reads: one entry per user
   * with a kept row, nothing blank, and each user's value from the last of
   * its kept rows. Only the rows after the first are looked at.
   */
  lemma CsvContents(rows: seq<CsvRow>)
    requires FlairFromCsv(rows).Success?
    ensures var m := FlairFromCsv(rows).value;
      && m.Keys == (set j | 1 <= j < |rows| && Keeps(rows[j]) :: rows[j][0])
      && (forall u :: u in m ==> m[u].text != "" || m[u].css != "")
      && (forall j :: 1 <= j < |rows| && Keeps(rows[j]) && LastKeptFor(rows, j, |rows|) ==>
            m[rows[j][0]] == Flair(rows[j][1], rows[j][2]))
  {
    var data := rows[1..];
    assert forall k :: 0 <= k < |data| ==> data[k] == rows[k + 1];
    CsvMapKeys(data, |data|);
    CsvMapNoBlank(data, |data|);
    var m := FlairFromCsv(rows).value;
    assert m == CsvMap(data, |data|);
    var fromData := KeptUsers(data, |data|);
    var fromRows := set j | 1 <= j < |rows| && Keeps(rows[j]) :: rows[j][0];
    assert fromRows == fromData by {
      forall u | u in fromData ensures u in fromRows {
        var j :| 0 <= j < |data| && Keeps(data[j]) && data[j][0] == u;
        assert Keeps(rows[j + 1]) && rows[j + 1][0] == u;
      }
    }
    forall j | 1 <= j < |rows| && Keeps(rows[j]) && LastKeptFor(rows, j, |rows|)
      ensures m[rows[j][0]] == Flair(rows[j][1], rows[j][2])
    {
      assert data[j - 1] == rows[j];
      assert LastKeptFor(data, j - 1, |data|) by {
        forall k | j - 1 < k < |data| && Keeps(data[k])
          ensures data[k][0] != data[j - 1][0]
        {
          assert data[k] == rows[k + 1];
        }
      }
      CsvMapLast(data, |data|, j - 1);
    }
  }

  /** The header row is skipped whatever it holds. */
  lemma CsvIgnoresHeader(h1: CsvRow, h2: CsvRow, data: seq<CsvRow>)
    ensures FlairFromCsv([h1] + data) == FlairFromCsv([h2] + data)
  {
    assert ([h1] + data)[1..] == data == ([h2] + data)[1..];
  }

  /** The current flair of a user as listed remotely: text and css class, each possibly `None`. */
  datatype RemoteFlair = RemoteFlair(text: Option<string>, css: Option<string>)

  type RemoteFlairMap = map<Option<string>, RemoteFlair>

  /** `(u(r[0]), (u(r[1]), u(r[2])))` for one listed entry; the user is decoded first. */
  function DecodeEntry(e: RedditClient.RemoteEntry, table: Entities.EntityTable)
    : (r: Result<(Option<string>, RemoteFlair), Entities.DecodeError>)
    ensures r.Success? <==>
      Entities.Decode(e.user, table).Success? && Entities.Decode(e.text, table).Success? && Entities.Decode(e.css, table).Success?
    ensures r.Success? ==>
      r.value == (Entities.Decode(e.user, table).value,
                  RemoteFlair(Entities.Decode(e.text, table).value, Entities.Decode(e.css, table).value))
    ensures Entities.Decode(e.user, table).Failure? ==> r == Failure(Entities.Decode(e.user, table).error)
    ensures Entities.Decode(e.user, table).Success? && Entities.Decode(e.text, table).Failure? ==>
      r == Failure(Entities.Decode(e.text, table).error)
    ensures Entities.Decode(e.user, table).Success? && Entities.Decode(e.text, table).Success? ==>
      Entities.Decode(e.css, table).Failure? ==> r == Failure(Entities.Decode(e.css, table).error)
  {
    match Entities.Decode(e.user, table)
    case Failure(err) => Failure(err)
    case Success(user) =>
      match Entities.Decode(e.text, table)
      case Failure(err) => Failure(err)
      case Success(text) =>
        match Entities.Decode(e.css, table)
        case Failure(err) => Failure(err)
        case Success(css) => Success((user, RemoteFlair(text, css)))
  }

  /** Decodes the entries in order; the first entry that raises stops it. */
  function DecodeEntries(entries: seq<RedditClient.RemoteEntry>, table: Entities.EntityTable)
    : (r: Result<seq<(Option<string>, RemoteFlair)>, Entities.DecodeError>)
    ensures r.Success? <==> forall i :: 0 <= i < |entries| ==> DecodeEntry(entries[i], table).Success?
    ensures r.Success? ==>
      |r.value| == |entries| && forall i :: 0 <= i < |entries| ==> r.value[i] == DecodeEntry(entries[i], table).value
  {
    if entries == [] then Success([])
    else
      match DecodeEntry(entries[0], table)
      case Failure(err) => Failure(err)
      case Success(p) =>
        match DecodeEntries(entries[1..], table)
        case Failure(err) =>
          assert forall i :: 0 <= i < |entries| - 1 ==> entries[1..][i] == entries[i + 1];
          Failure(err)
        case Success(ps) =>
          assert forall i :: 1 <= i < |entries| ==> entries[i] == entries[1..][i - 1];
          Success([p] + ps)
  }

  /** When entry `i` is the first that raises, the decode raises its error. */
  lemma {:induction false} DecodeEntriesFirstFailure(entries: seq<RedditClient.RemoteEntry>,
                                                    table: Entities.EntityTable, i: nat)
    requires i < |entries| && DecodeEntry(entries[i], table).Failure?
    requires forall k :: 0 <= k < i ==> DecodeEntry(entries[k], table).Success?
    ensures DecodeEntries(entries, table) == Failure(DecodeEntry(entries[i], table).error)
    decreases i
  {
    if i > 0 {
      var rest := entries[1..];
      assert rest[i - 1] == entries[i];
      forall k | 0 <= k < i - 1 ensures DecodeEntry(rest[k], table).Success? {
        assert rest[k] == entries[k + 1];
      }
      DecodeEntriesFirstFailure(rest, table, i - 1);
      assert DecodeEntry(entries[0], table).Success?;
    }
  }

  /** `dict(pairs)`: every key of the pairs, with the value of its last pair. */
  function Dict<K, V>(pairs: seq<(K, V)>): (m: map<K, V>)
    ensures m.Keys == set i | 0 <= i < |pairs| :: pairs[i].0
    ensures forall i :: 0 <= i < |pairs| && (forall j :: i < j < |pairs| ==> pairs[j].0 != pairs[i].0) ==>
      m[pairs[i].0] == pairs[i].1
  {
    if pairs == [] then map[]
    else
      var init := pairs[..|pairs| - 1];
      var last := pairs[|pairs| - 1];
      var m := Dict(init)[last.0 := last.1];
      assert m.Keys == set i | 0 <= i < |pairs| :: pairs[i].0 by {
        assert forall i :: 0 <= i < |init| ==> init[i] == pairs[i];
        forall k | k in m.Keys ensures k in set i | 0 <= i < |pairs| :: pairs[i].0 {
          if k != last.0 {
            var i :| 0 <= i < |init| && init[i].0 == k;
            assert pairs[i].0 == k;
          }
        }
      }
      m
  }

  /** `flair_from_reddit`: the listed entries, decoded, as a dict keyed by user. */
  function FlairFromReddit(entries: seq<RedditClient.RemoteEntry>, table: Entities.EntityTable)
    : (r: Result<RemoteFlairMap, Entities.DecodeError>)
    ensures r.Success? <==> forall i :: 0 <= i < |entries| ==> DecodeEntry(entries[i], table).Success?
    ensures r.Success? ==> r.value == Dict(DecodeEntries(entries, table).value)
    ensures r.Failure? ==> r == Failure(DecodeEntries(entries, table).error)
  {
    match DecodeEntries(entries, table)
    case Failure(err) => Failure(err)
    case Success(pairs) => Success(Dict(pairs))
  }

  /** No field of the entry holds a `&`. */
  predicate Plain(e: RedditClient.RemoteEntry) {
    && (e.user.Some? ==> '&' !in e.user.value)
    && (e.text.Some? ==> '&' !in e.text.value)
    && (e.css.Some? ==> '&' !in e.css.value)
  }

  /** The entries as listed, as `(user, (text, css))` pairs. */
  function Listed(entries: seq<RedditClient.RemoteEntry>): (pairs: seq<(Option<string>, RemoteFlair)>)
    ensures |pairs| == |entries|
  {
    seq(|entries|, i requires 0 <= i < |entries| => (entries[i].user, RemoteFlair(entries[i].text, entries[i].css)))
  }

  /**
   * With nothing to decode, the remote map is `dict` of the entries as
   * listed: by the contract of `Dict`, every listed user, with the flair of
   * the last entry listing it.
   */
  lemma RemotePlain(entries: seq<RedditClient.RemoteEntry>, table: Entities.EntityTable)
    requires forall i :: 0 <= i < |entries| ==> Plain(entries[i])
    ensures FlairFromReddit(entries, table) == Success(Dict(Listed(entries)))
  {
    PlainDecodes(entries, table);
    assert DecodeEntries(entries, table).value == Listed(entries);
  }

  /** Entries without `&` decode to themselves, in order. */
  lemma PlainDecodes(entries: seq<RedditClient.RemoteEntry>, table: Entities.EntityTable)
    requires forall i :: 0 <= i < |entries| ==> Plain(entries[i])
    ensures DecodeEntries(entries, table).Success?
    ensures |DecodeEntries(entries, table).value| == |entries|
    ensures forall i :: 0 <= i < |entries| ==>
      DecodeEntries(entries, table).value[i] == (entries[i].user, RemoteFlair(entries[i].text, entries[i].css))
  {
    forall i | 0 <= i < |entries|
      ensures DecodeEntry(entries[i], table) == Success((entries[i].user, RemoteFlair(entries[i].text, entries[i].css)))
    {
      PlainEntry(entries[i], table);
    }
  }

  /** An entry without `&` decodes to itself. */
  lemma PlainEntry(e: RedditClient.RemoteEntry, table: Entities.EntityTable)
    requires Plain(e)
    ensures DecodeEntry(e, table) == Success((e.user, RemoteFlair(e.text, e.css)))
  {
    assert Entities.Decode(e.user, table) == Success(e.user);
    assert Entities.Decode(e.text, table) == Success(e.text);
    assert Entities.Decode(e.css, table) == Success(e.css);
  }

  /**
   * The result of `diff_flair(left, right)`: the users whose flair must be
   * set, each with the value from `right`, and the users whose flair must
   * be removed. The source returns the modifications as a list built by
   * iterating over sets, in no particular order; a map keeps what is in it.
   */
  datatype Diff<U, F> = Diff(modifications: map<U, F>, deletions: set<U>)

  /** `diff_flair(left, right)`: what turns the `left` flair into the `right` flair. */
  function DiffFlair<U, F(==)>(left: map<U, F>, right: map<U, F>): (d: Diff<U, F>)
    ensures forall u :: u in d.modifications ==> u in right && d.modifications[u] == right[u]
    ensures forall u :: u in right ==> (u in d.modifications <==> u !in left || left[u] != right[u])
    ensures d.deletions == left.Keys - right.Keys
    ensures d.modifications.Keys !! d.deletions
  {
    var common := left.Keys * right.Keys;
    var added := right.Keys - left.Keys;
    var removed := left.Keys - right.Keys;
    var changed := map u | u in common && left[u] != right[u] :: right[u];
    Diff(changed + map u | u in added :: right[u], removed)
  }

  /** Applying a diff: the deletions are removed and the modifications set. */
  function ApplyDiff<U, F>(current: map<U, F>, d: Diff<U, F>): map<U, F>
  {
    (current - d.deletions) + d.modifications
  }

  /** Applying `diff_flair(left, right)` to `left` gives `right`. */
  lemma DiffThenApply<U, F>(left: map<U, F>, right: map<U, F>)
    ensures ApplyDiff(left, DiffFlair(left, right)) == right
  {
    var d := DiffFlair(left, right);
    var a := ApplyDiff(left, d);
    assert a.Keys == right.Keys;
    forall u | u in right ensures a[u] == right[u] {
      if u !in d.modifications {
        assert u in left && left[u] == right[u];
      }
    }
  }

  /** The diff is empty exactly when there is nothing to change. */
  lemma DiffEmptyIff<U, F>(left: map<U, F>, right: map<U, F>)
    ensures DiffFlair(left, right) == Diff(map[], {}) <==> left == right
  {
    var d := DiffFlair(left, right);
    DiffThenApply(left, right);
    if d == Diff(map[], {}) {
      assert ApplyDiff(left, d) == left;
    }
    if left == right {
      assert d.modifications.Keys == {};
    }
  }

  /** With no user in common, every right entry is a modification and every left user a deletion. */
  lemma DiffDisjoint<U, F>(left: map<U, F>, right: map<U, F>)
    requires left.Keys !! right.Keys
    ensures DiffFlair(left, right) == Diff(right, left.Keys)
  {
    var d := DiffFlair(left, right);
    assert d.modifications.Keys == right.Keys;
  }

  /** A file with one flaired user against a remote with no flair: that user is the one modification. */
  lemma FirstFlairScenario()
    ensures var rows := [["user", "text", "css"], ["alice", "zzr600", "kawasaki"]];
      && FlairFromCsv(rows) == Success(map["alice" := Flair("zzr600", "kawasaki")])
      && DiffFlair(map[], FlairFromCsv(rows).value) == Diff(map["alice" := Flair("zzr600", "kawasaki")], {})
  {
    var rows := [["user", "text", "css"], ["alice", "zzr600", "kawasaki"]];
    var data := rows[1..];
    assert data == [["alice", "zzr600", "kawasaki"]];
    assert FirstShortRow(data, 0) == None;
    assert Keeps(data[0]);
    assert CsvMap(data, 1) == map["alice" := Flair("zzr600", "kawasaki")];
    DiffDisjoint(map[], map["alice" := Flair("zzr600", "kawasaki")]);
  }

  /** A file with only its header against a remote where a user has flair: that user is the one deletion. */
  lemma HeaderOnlyScenario(f: Flair)
    ensures FlairFromCsv([["user", "text", "css"]]) == Success(map[])
    ensures DiffFlair(map["alice" := f], map[]) == Diff(map[], {"alice"})
  {
    assert [["user", "text", "css"]][1..] == [];
    DiffDisjoint(map["alice" := f], map[]);
  }
}
