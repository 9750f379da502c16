/** The two paged spreadsheet exports: offset/limit loops with a 32-bit offset against a table whose
    order is fixed. `queryOk` and `appendOk` say which query and which row write succeeds, `flushOk`
    whether the finished workbook can be written out.
 */
module Export {
  datatype Result<T> = Ok(value: T) | Err(error: string)

  const EXPORT_PAGE_SIZE := 1000
  const REPO_PAGE_SIZE := 500

  /** The first table length whose export needs an offset beyond a signed 32-bit integer. */
  const OFFSET_OVERFLOW := 2_147_484_000

  function WrapInt32(x: int): (r: int)
    ensures -0x8000_0000 <= r < 0x8000_0000 && (r - x) % 0x1_0000_0000 == 0
  {
    (x + 0x8000_0000) % 0x1_0000_0000 - 0x8000_0000
  }

  /** Where the offset variable stands after `n` rows of full pages. */
  function OffsetAfter(n: nat): int {
    if n < OFFSET_OVERFLOW then n else n - 0x1_0000_0000
  }

  lemma OffsetAdvances(n: nat, page: nat)
    requires n < OFFSET_OVERFLOW && (page == EXPORT_PAGE_SIZE || page == REPO_PAGE_SIZE) && n % page == 0
    ensures n + page <= OFFSET_OVERFLOW && WrapInt32(OffsetAfter(n) + page) == OffsetAfter(n + page)
  {
  }

  function Min(a: int, b: int): int {
    if a < b then a else b
  }

  /** SELECT ... LIMIT limit OFFSET offset; a negative offset is an error of the database. */
  function Page<T>(table: seq<T>, limit: nat, offset: int): Result<seq<T>> {
    if offset < 0 then Err("OFFSET must not be negative")
    else Ok(table[Min(offset, |table|)..Min(offset + limit, |table|)])
  }

  function Filter<T>(rows: seq<T>, keep: T -> bool): seq<T> {
    if rows == [] then [] else
      Filter(rows[..|rows| - 1], keep) + if keep(rows[|rows| - 1]) then [rows[|rows| - 1]] else []
  }

  /** The inner loop of the answer export: append the rows of one page. */
  method AppendPage<T>(out: seq<T>, rows: seq<T>, appendOk: nat -> bool) returns (out': seq<T>, ok: bool)
    ensures out' <= out + rows && |out| <= |out'|
    ensures ok ==> out' == out + rows
    ensures ok <==> forall k: nat | |out| <= k < |out| + |rows| :: appendOk(k)
  {
    out' := out;
    assert rows[..0] == [];
    for i := 0 to |rows|
      invariant out' == out + rows[..i]
      invariant forall k: nat | |out| <= k < |out'| :: appendOk(k)
    {
      if !appendOk(|out'|) {
        return out', false;
      }
      assert rows[..i + 1] == rows[..i] + [rows[i]];
      out' := out' + [rows[i]];
    }
    assert rows[..|rows|] == rows;
    ok := true;
  }

  /** ExportProjectAnswers: the file holds the whole table, once each and in order, after one query
      per full page and one more; it fails exactly on a database or write error, or when the table
      is so long that the offset wraps around. */
  method ExportAnswers<T>(table: seq<T>, queryOk: nat -> bool, appendOk: nat -> bool, flushOk: bool)
    returns (r: Result<seq<T>>, queries: nat)
    ensures r.Ok? ==> r.value == table && queries == |table| / EXPORT_PAGE_SIZE + 1
    ensures r.Ok? <==> && flushOk && |table| < OFFSET_OVERFLOW
                       && (forall q: nat | q <= |table| / EXPORT_PAGE_SIZE :: queryOk(q))
                       && (forall k: nat | k < |table| :: appendOk(k))
  {
    hide WrapInt32;
    var out: seq<T> := [];
    var offset := 0;
    queries := 0;
    while true
      invariant |out| == EXPORT_PAGE_SIZE * queries <= |table| && |out| <= OFFSET_OVERFLOW
      invariant offset == OffsetAfter(|out|) && out == table[..|out|]
      invariant forall q: nat | q < queries :: queryOk(q)
      invariant forall k: nat | k < |out| :: appendOk(k)
      decreases |table| - |out|
    {
      if !queryOk(queries) {
        return Err("load answers"), queries;
      }
      var page := Page(table, EXPORT_PAGE_SIZE, offset);
      if page.Err? {
        return Err(page.error), queries;
      }
      var rows := page.value;
      queries := queries + 1;
      if |rows| == 0 {
        break;
      }
      assert table[..|out| + |rows|] == out + rows;
      ghost var before := out;
      var ok;
      out, ok := AppendPage(out, rows, appendOk);
      if !ok {
        return Err("append row"), queries;
      }
      if |rows| < EXPORT_PAGE_SIZE {
        break;
      }
      OffsetAdvances(|before|, EXPORT_PAGE_SIZE);
      offset := WrapInt32(offset + EXPORT_PAGE_SIZE);
    }
    if !flushOk {
      return Err("flush"), queries;
    }
    return Ok(out), queries;
  }

  /** The inner loop of the repo export: append the rows of one page that belong to the repo. */
  method KeepPage<T>(out: seq<T>, ghost done: seq<T>, rows: seq<T>, inRepo: T -> bool, appendOk: nat -> bool)
    returns (out': seq<T>, ok: bool)
    requires out == Filter(done, inRepo)
    ensures ok ==> out' == Filter(done + rows, inRepo)
    ensures ok <==> forall k: nat | |out| <= k < |Filter(done + rows, inRepo)| :: appendOk(k)
  {
    hide Filter;
    out' := out;
    assert done + rows[..0] == done;
    for i := 0 to |rows|
      invariant out' == Filter(done + rows[..i], inRepo) && |out| <= |out'|
      invariant forall k: nat | |out| <= k < |out'| :: appendOk(k)
    {
      FilterNext(done, rows, i, inRepo);
      if !inRepo(rows[i]) {
        continue;
      }
      if !appendOk(|out'|) {
        return out', false;
      }
      out' := out' + [rows[i]];
    }
    assert rows[..|rows|] == rows;
    ok := true;
  }

  /** One more row of the page, and what that means for the whole page. */
  lemma FilterNext<T>(done: seq<T>, rows: seq<T>, i: nat, keep: T -> bool)
    requires i < |rows|
    ensures Filter(done + rows[..i + 1], keep)
            == Filter(done + rows[..i], keep) + if keep(rows[i]) then [rows[i]] else []
    ensures |Filter(done + rows[..i + 1], keep)| <= |Filter(done + rows, keep)|
  {
    var next := done + rows[..i + 1];
    assert next[..|done| + i] == done + rows[..i] && next[|done| + i] == rows[i];
    assert (done + rows)[..|done| + i + 1] == next;
    FilterGrows(done + rows, |done| + i + 1, keep);
  }

  lemma {:induction false} FilterGrows<T>(rows: seq<T>, i: nat, keep: T -> bool)
    requires i <= |rows|
    ensures |Filter(rows[..i], keep)| <= |Filter(rows, keep)|
  {
    if i == |rows| {
      assert rows[..i] == rows;
    } else {
      assert rows[..|rows| - 1][..i] == rows[..i];
      FilterGrows(rows[..|rows| - 1], i, keep);
    }
  }

  /** handleSKRepoExport: pages through all templates and keeps those of one repo. */
  method ExportRepo<T>(table: seq<T>, inRepo: T -> bool, queryOk: nat -> bool, appendOk: nat -> bool, flushOk: bool)
    returns (r: Result<seq<T>>, queries: nat)
    ensures r.Ok? ==> r.value == Filter(table, inRepo) && queries == |table| / REPO_PAGE_SIZE + 1
    ensures r.Ok? <==> && flushOk && |table| < OFFSET_OVERFLOW
                       && (forall q: nat | q <= |table| / REPO_PAGE_SIZE :: queryOk(q))
                       && (forall k: nat | k < |Filter(table, inRepo)| :: appendOk(k))
  {
    hide WrapInt32, Filter;
    var out: seq<T> := [];
    var off := 0;
    queries := 0;
    ghost var seen := 0;
    NothingFiltered(inRepo);
    while true
      invariant seen == REPO_PAGE_SIZE * queries <= |table| && seen <= OFFSET_OVERFLOW
      invariant off == OffsetAfter(seen) && out == Filter(table[..seen], inRepo)
      invariant forall q: nat | q < queries :: queryOk(q)
      invariant forall k: nat | k < |out| :: appendOk(k)
      decreases |table| - seen
    {
      if !queryOk(queries) {
        return Err("list templates"), queries;
      }
      var page := Page(table, REPO_PAGE_SIZE, off);
      if page.Err? {
        return Err(page.error), queries;
      }
      var rows := page.value;
      queries := queries + 1;
      assert rows == table[seen..seen + |rows|];
      assert table[..seen] + rows == table[..seen + |rows|];
      FilterGrows(table, seen + |rows|, inRepo);
      var ok;
      out, ok := KeepPage(out, table[..seen], rows, inRepo, appendOk);
      if !ok {
        return Err("write row"), queries;
      }
      if |rows| < REPO_PAGE_SIZE {
        break;
      }
      OffsetAdvances(seen, REPO_PAGE_SIZE);
      seen := seen + REPO_PAGE_SIZE;
      off := WrapInt32(off + REPO_PAGE_SIZE);
    }
    assert table[..|table|] == table;
    if !flushOk {
      return Err("flush xlsx"), queries;
    }
    return Ok(out), queries;
  }

  /** Theorem: what is kept are the rows of the repo and only they, and what two halves keep comes in the same order. */
  lemma {:induction false} FilterSpec<T>(a: seq<T>, b: seq<T>, keep: T -> bool)
    ensures Filter(a + b, keep) == Filter(a, keep) + Filter(b, keep)
    ensures forall x :: x in Filter(b, keep) <==> x in b && keep(x)
  {
    if b == [] {
      assert a + b == a;
    } else {
      var front, x := b[..|b| - 1], b[|b| - 1];
      assert (a + b)[..|a + b| - 1] == a + front;
      FilterSpec(a, front, keep);
      assert b == front + [x];
    }
  }

  lemma NothingFiltered<T>(keep: T -> bool)
    ensures Filter([], keep) == []
  {
  }
}
