/**
 * Generic row machinery shared by the repositories: keyword arguments,
 * `hasattr`/`setattr`/`getattr` on a model class, the `where` clauses of
 * `filter_by`, SQL `LIKE '%q%'` matching and the materialisation of a query
 * result as a list.
 */
module Rows {
  import opened Wrappers

  /** A keyword-argument value: `None`, an integer (ids, cents, times), a string or a flag. */
  datatype Value = Null | Int(i: int) | Str(s: string) | Bool(b: bool)

  /** A nullable id column as a value. */
  function OptionalId(o: Option<int>): Value {
    match o
    case Some(i) => Int(i)
    case None => Null
  }

  /** `**kwargs`, in the order given. */
  type Kwargs = seq<(string, Value)>

  /**
   * What a model class knows about its own columns: their names (`hasattr`),
   * which values a column can hold (`fits`), and how to read (`get`) and write
   * (`put`) one column of a row.
   */
  datatype Schema<!R> = Schema(
    columns: set<string>,
    fits: (string, Value) -> bool,
    get: (R, string) -> Value,
    put: (R, string, Value) -> R)

  /**
   * A schema behaves like attribute access: a write of a fitting value is
   * read back, a write touches no other column, and a value the column
   * cannot hold leaves the row as it was.
   */
  ghost predicate Lawful<R(!new)>(s: Schema<R>) {
    && (forall r, k, v :: k in s.columns && s.fits(k, v) ==> s.get(s.put(r, k, v), k) == v)
    && (forall r, k, v, k' :: k in s.columns && k' != k ==> s.get(s.put(r, k, v), k') == s.get(r, k'))
    && (forall r, k, v :: !s.fits(k, v) ==> s.put(r, k, v) == r)
  }

  /** One step of the kwargs loop: `if hasattr(row, key) and value is not None: setattr(row, key, value)`. */
  function SetAttr<R>(s: Schema<R>, row: R, kv: (string, Value)): R {
    if kv.0 in s.columns && kv.1 != Null then s.put(row, kv.0, kv.1) else row
  }

  /** The whole kwargs loop, pair after pair in the order given. */
  function ApplyKwargs<R>(s: Schema<R>, row: R, kw: Kwargs): R
    decreases |kw|
  {
    if kw == [] then row else SetAttr(s, ApplyKwargs(s, row, kw[..|kw| - 1]), kw[|kw| - 1])
  }

  /** The kwargs loop itself, shared by `Client.update` and `BaseRepository.update`. */
  method SetAttrs<R>(s: Schema<R>, row: R, kw: Kwargs) returns (updated: R)
    ensures updated == ApplyKwargs(s, row, kw)
  {
    updated := row;
    var i := 0;
    while i < |kw|
      invariant 0 <= i <= |kw|
      invariant updated == ApplyKwargs(s, row, kw[..i])
    {
      var (key, value) := kw[i];
      if key in s.columns && value != Null {
        updated := s.put(updated, key, value);
      }
      assert kw[..i + 1][..i] == kw[..i];
      i := i + 1;
    }
    assert kw[..|kw|] == kw;
  }

  /** Adding a pair at the end of the kwargs runs one more step of the loop. */
  lemma ApplyKwargsSnoc<R>(s: Schema<R>, row: R, kw: Kwargs, kv: (string, Value))
    ensures ApplyKwargs(s, row, kw + [kv]) == SetAttr(s, ApplyKwargs(s, row, kw), kv)
  {
    assert (kw + [kv])[..|kw|] == kw;
  }

  /** The value that the last pair naming column `k` with a non-`None`, fitting value gives it. */
  function LastSet<R>(s: Schema<R>, kw: Kwargs, k: string): Option<Value>
    decreases |kw|
  {
    if kw == [] then None
    else if kw[|kw| - 1].0 == k && kw[|kw| - 1].1 != Null && s.fits(k, kw[|kw| - 1].1) then Some(kw[|kw| - 1].1)
    else LastSet(s, kw[..|kw| - 1], k)
  }

  /**
   * After the kwargs loop every column holds the last non-`None` value given
   * for it, and every column given only `None` (or not given) keeps its value.
   */
  lemma {:induction false} ApplyKwargsFieldwise<R(!new)>(s: Schema<R>, row: R, kw: Kwargs, k: string)
    requires Lawful(s)
    requires k in s.columns
    ensures s.get(ApplyKwargs(s, row, kw), k) == LastSet(s, kw, k).GetOr(s.get(row, k))
  {
    if kw != [] {
      ApplyKwargsFieldwise(s, row, kw[..|kw| - 1], k);
    }
  }

  /** The pairs the loop acts on: a column name with a non-`None` value. */
  function Applicable<R>(s: Schema<R>, kw: Kwargs): (a: Kwargs)
    decreases |kw|
  {
    if kw == [] then []
    else
      var last := kw[|kw| - 1];
      Applicable(s, kw[..|kw| - 1]) + (if last.0 in s.columns && last.1 != Null then [last] else [])
  }

  /** Keys that are not columns, and `None` values, make no difference at all. */
  lemma {:induction false} OnlyApplicablePairsMatter<R>(s: Schema<R>, row: R, kw: Kwargs)
    ensures ApplyKwargs(s, row, kw) == ApplyKwargs(s, row, Applicable(s, kw))
    ensures forall p :: p in Applicable(s, kw) ==> p in kw && p.0 in s.columns && p.1 != Null
  {
    if kw != [] {
      var init, last := kw[..|kw| - 1], kw[|kw| - 1];
      OnlyApplicablePairsMatter(s, row, init);
      var a := Applicable(s, init);
      if last.0 in s.columns && last.1 != Null {
        assert (a + [last])[..|a|] == a;
      } else {
        assert Applicable(s, kw) == a;
      }
    }
  }

  // ---------------------------------------------------------------------
  // filter_by

  /** The `where` clauses `filter_by` adds: one per pair whose key is a column. */
  function Conditions<R>(s: Schema<R>, kw: Kwargs): Kwargs
    decreases |kw|
  {
    if kw == [] then []
    else Conditions(s, kw[..|kw| - 1]) + (if kw[|kw| - 1].0 in s.columns then [kw[|kw| - 1]] else [])
  }

  lemma {:induction false} ConditionsAreKnownPairs<R>(s: Schema<R>, kw: Kwargs)
    ensures forall p :: p in Conditions(s, kw) <==> p in kw && p.0 in s.columns
  {
    if kw != [] {
      ConditionsAreKnownPairs(s, kw[..|kw| - 1]);
      assert kw == kw[..|kw| - 1] + [kw[|kw| - 1]];
    }
  }

  /** A row satisfies every clause of a conjunction of `column == value` tests. */
  predicate Holds<R>(s: Schema<R>, row: R, conds: Kwargs) {
    forall p :: p in conds ==> s.get(row, p.0) == p.1
  }

  /** Every pair of `kw` whose key is a column equals the row's value there; other keys are ignored. */
  predicate MatchesAll<R>(s: Schema<R>, row: R, kw: Kwargs) {
    forall p :: p in kw && p.0 in s.columns ==> s.get(row, p.0) == p.1
  }

  /** The rows that `filter_by(**kw)` returns. */
  function Select<R>(s: Schema<R>, rows: map<int, R>, kw: Kwargs): map<int, R> {
    map id | id in rows && MatchesAll(s, rows[id], kw) :: rows[id]
  }

  // ---------------------------------------------------------------------
  // Column.contains(q), i.e. LIKE '%q%'

  /** `q` occurs in `text`. */
  predicate Contains(text: string, q: string)
    decreases |text|
  {
    q <= text || (|text| > 0 && Contains(text[1..], q))
  }

  /** `q` occurs in `text` starting at position `i`. */
  predicate OccursAt(text: string, q: string, i: int) {
    0 <= i && i + |q| <= |text| && text[i..i + |q|] == q
  }

  /** `Contains` is the substring relation. */
  lemma {:induction false} ContainsIffSubstring(text: string, q: string)
    ensures Contains(text, q) <==> exists i :: OccursAt(text, q, i)
    decreases |text|
  {
    if q <= text {
      assert OccursAt(text, q, 0);
    }
    if |text| > 0 {
      var tail := text[1..];
      ContainsIffSubstring(tail, q);
      if Contains(tail, q) {
        var i :| OccursAt(tail, q, i);
        assert text[i + 1..i + 1 + |q|] == tail[i..i + |q|];
        assert OccursAt(text, q, i + 1);
      }
      if exists i :: OccursAt(text, q, i) {
        var i :| OccursAt(text, q, i);
        if i == 0 {
          assert q <= text;
        } else {
          assert tail[i - 1..i - 1 + |q|] == text[i..i + |q|];
          assert OccursAt(tail, q, i - 1);
        }
      }
    } else if exists i :: OccursAt(text, q, i) {
      var i :| OccursAt(text, q, i);
      assert q == [];
    }
  }

  // ---------------------------------------------------------------------
  // Query results as lists

  /** `s` lists every row of `m` exactly once, in some order. */
  ghost predicate Enumerates<K, R>(s: seq<(K, R)>, m: map<K, R>) {
    && (forall i :: 0 <= i < |s| ==> s[i].0 in m && m[s[i].0] == s[i].1)
    && (forall i, j :: 0 <= i < j < |s| ==> s[i].0 != s[j].0)
    && (forall id :: id in m ==> (id, m[id]) in s)
  }

  /** `results.all()` of an unordered query: the rows of `m` in an order the database chooses. */
  method ListOf<K, R>(m: map<K, R>) returns (s: seq<(K, R)>)
    ensures Enumerates(s, m)
    ensures |s| == |m|
  {
    s := [];
    var remaining := m.Keys;
    while remaining != {}
      invariant remaining <= m.Keys
      invariant |s| + |remaining| == |m|
      invariant forall i :: 0 <= i < |s| ==> s[i].0 in m && s[i].0 !in remaining && m[s[i].0] == s[i].1
      invariant forall i, j :: 0 <= i < j < |s| ==> s[i].0 != s[j].0
      invariant forall id :: id in m && id !in remaining ==> (id, m[id]) in s
      decreases remaining
    {
      var id :| id in remaining;
      s := s + [(id, m[id])];
      remaining := remaining - {id};
    }
  }

  /** Row `id` has the least key among the rows `ids`. */
  predicate IsLeast<K, R>(m: map<K, R>, ids: set<K>, key: R -> int, id: K)
    requires ids <= m.Keys
  {
    id in ids && forall j :: j in ids ==> key(m[id]) <= key(m[j])
  }

  /** A non-empty set of rows has one whose key is least. */
  lemma {:induction false} LeastKeyExists<K, R>(m: map<K, R>, ids: set<K>, key: R -> int)
    requires ids != {} && ids <= m.Keys
    ensures exists id :: IsLeast(m, ids, key, id)
    decreases ids
  {
    var x :| x in ids;
    if ids == {x} {
      assert IsLeast(m, ids, key, x);
    } else {
      var rest := ids - {x};
      LeastKeyExists(m, rest, key);
      var y :| IsLeast(m, rest, key, y);
      if key(m[x]) <= key(m[y]) {
        forall j | j in ids ensures key(m[x]) <= key(m[j]) {
          if j != x { assert j in rest; }
        }
        assert IsLeast(m, ids, key, x);
      } else {
        forall j | j in ids ensures key(m[y]) <= key(m[j]) {
          if j != x { assert j in rest; }
        }
        assert IsLeast(m, ids, key, y);
      }
    }
  }

  /** `results.all()` of a query with `ORDER BY key`: every row once, keys non-decreasing. */
  method OrderedBy<K, R>(m: map<K, R>, key: R -> int) returns (s: seq<(K, R)>)
    ensures Enumerates(s, m)
    ensures forall i, j :: 0 <= i < j < |s| ==> key(s[i].1) <= key(s[j].1)
  {
    s := [];
    var remaining := m.Keys;
    while remaining != {}
      invariant remaining <= m.Keys
      invariant forall i :: 0 <= i < |s| ==> s[i].0 in m && s[i].0 !in remaining && m[s[i].0] == s[i].1
      invariant forall i, j :: 0 <= i < j < |s| ==> s[i].0 != s[j].0
      invariant forall id :: id in m && id !in remaining ==> (id, m[id]) in s
      invariant forall i, j :: 0 <= i < j < |s| ==> key(s[i].1) <= key(s[j].1)
      invariant forall i, id :: 0 <= i < |s| && id in remaining ==> key(s[i].1) <= key(m[id])
      decreases remaining
    {
      LeastKeyExists(m, remaining, key);
      var id :| IsLeast(m, remaining, key, id);
      s := s + [(id, m[id])];
      remaining := remaining - {id};
    }
  }

  function Min(a: int, b: int): int { if a <= b then a else b }

  /** `offset(skip).limit(limit)` over an unordered table: that many distinct rows of it. */
  ghost predicate IsPage<K, R>(page: seq<(K, R)>, rows: map<K, R>, skip: nat, limit: nat) {
    && |page| == Min(limit, if |rows| >= skip then |rows| - skip else 0)
    && (forall i :: 0 <= i < |page| ==> page[i].0 in rows && rows[page[i].0] == page[i].1)
    && (forall i, j :: 0 <= i < j < |page| ==> page[i].0 != page[j].0)
  }
}
