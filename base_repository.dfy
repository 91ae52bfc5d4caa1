/**
 * `BaseRepository[ModelType]` (epicevents/app/repositories/base.py): one
 * table of rows keyed by their integer id, with the generic create / read /
 * update / delete / count / filter operations every repository inherits.
 * The session's commit and refresh are the assignment to `rows`.
 */
module BaseRepository {
  import opened Wrappers
  import opened Rows

  class Table<R(!new)> {
    /** The model class: its columns and attribute access. */
    const schema: Schema<R>
    /** The stored rows, by id. */
    var rows: map<int, R>
    /** The id the database hands out next (every id handed out is fresh and positive; the model never reuses one). */
    var nextId: int

    ghost predicate Valid()
      reads this
    {
      1 <= nextId && forall id :: id in rows ==> 1 <= id < nextId
    }

    constructor (schema: Schema<R>)
      ensures Valid()
      ensures this.schema == schema && rows == map[]
    {
      this.schema := schema;
      rows := map[];
      nextId := 1;
    }

    /** `create(**kwargs)`: the new row is stored under a fresh positive id. */
    method Create(row: R) returns (id: int)
      requires Valid()
      modifies this
      ensures Valid()
      ensures 1 <= id && id !in old(rows)
      ensures rows == old(rows)[id := row]
      ensures GetById(id) == Some(row)
      ensures Count() == old(Count()) + 1
    {
      id := nextId;
      rows := rows[id := row];
      nextId := nextId + 1;
    }

    /** `get_by_id(id)`: the row stored under `id`, or `None`. */
    function GetById(id: int): (r: Option<R>)
      reads this
      ensures r.Some? <==> id in rows
      ensures r.Some? ==> rows[id] == r.value
    {
      if id in rows then Some(rows[id]) else None
    }

    /** Ids are positive, so id 0 never names a row. */
    lemma NoRowZero()
      requires Valid()
      ensures GetById(0).None?
    {
    }

    /**
     * `get_all(skip, limit)`: `offset(skip).limit(limit)` over the table in
     * an order the database chooses; at most `limit` distinct stored rows.
     */
    method GetAll(skip: nat := 0, limit: nat := 100) returns (page: seq<(int, R)>)
      ensures IsPage(page, rows, skip, limit)
      ensures |page| <= limit
    {
      var all := ListOf(rows);
      var lo := Min(skip, |all|);
      var hi := Min(lo + limit, |all|);
      page := all[lo..hi];
    }

    /**
     * `update(id, **kwargs)`: `None` and no change for an absent id;
     * otherwise the kwargs loop over the stored row, which is written back.
     */
    method Update(id: int, kw: Kwargs) returns (r: Option<R>)
      requires Valid()
      modifies this
      ensures Valid() && nextId == old(nextId)
      ensures id !in old(rows) ==> r.None? && rows == old(rows)
      ensures id in old(rows) ==>
        && r == Some(ApplyKwargs(schema, old(rows)[id], kw))
        && rows == old(rows)[id := r.value]
      ensures id in old(rows) && Lawful(schema) ==>
        forall k :: k in schema.columns ==>
          schema.get(rows[id], k) == LastSet(schema, kw, k).GetOr(schema.get(old(rows)[id], k))
    {
      if id !in rows {
        return None;
      }
      var updated := SetAttrs(schema, rows[id], kw);
      ghost var before := rows[id];
      rows := rows[id := updated];
      r := Some(updated);
      if Lawful(schema) {
        forall k | k in schema.columns
          ensures schema.get(updated, k) == LastSet(schema, kw, k).GetOr(schema.get(before, k))
        {
          ApplyKwargsFieldwise(schema, before, kw, k);
        }
      }
    }

    /** `delete(id)`: true and the row removed when present; false and no change otherwise. */
    method Delete(id: int) returns (deleted: bool)
      requires Valid()
      modifies this
      ensures Valid() && nextId == old(nextId)
      ensures deleted <==> id in old(rows)
      ensures rows == old(rows) - {id}
      ensures GetById(id).None?
      ensures Count() == if deleted then old(Count()) - 1 else old(Count())
    {
      deleted := id in rows;
      if deleted {
        assert rows.Keys - {id} == (rows - {id}).Keys;
      } else {
        assert rows - {id} == rows;
      }
      rows := rows - {id};
    }

    /** `count()`: the number of stored rows. */
    function Count(): (n: nat)
      reads this
      ensures n == |rows.Keys|
      ensures n == 0 <==> rows == map[]
    {
      |rows|
    }

    /**
     * `filter_by(**kwargs)`: one `column == value` clause per key that is a
     * column (other keys are skipped), then every row satisfying them all.
     */
    method FilterBy(kw: Kwargs) returns (result: seq<(int, R)>)
      ensures Enumerates(result, Select(schema, rows, kw))
    {
      var conds: Kwargs := [];
      var i := 0;
      while i < |kw|
        invariant 0 <= i <= |kw|
        invariant conds == Conditions(schema, kw[..i])
      {
        if kw[i].0 in schema.columns {
          conds := conds + [kw[i]];
        }
        assert kw[..i + 1][..i] == kw[..i];
        i := i + 1;
      }
      assert kw[..|kw|] == kw;
      ConditionsAreKnownPairs(schema, kw);
      var matching := map id | id in rows && Holds(schema, rows[id], conds) :: rows[id];
      assert matching == Select(schema, rows, kw) by {
        forall id | id in rows
          ensures Holds(schema, rows[id], conds) <==> MatchesAll(schema, rows[id], kw)
        {
        }
      }
      result := ListOf(matching);
    }

    /**
     * Writing back a row fetched from the table: the `session.add(row);
     * commit()` after a row's own mutator ran.
     */
    method Save(id: int, row: R)
      requires Valid() && id in rows
      modifies this
      ensures Valid() && nextId == old(nextId)
      ensures rows == old(rows)[id := row]
      ensures Count() == old(Count())
    {
      rows := rows[id := row];
    }
  }

  /** The pairs `filter_by` ignores (keys that are not columns) do not change its result. */
  lemma {:induction false} UnknownKeysIgnored<R>(s: Schema<R>, rows: map<int, R>, kw: Kwargs)
    ensures Select(s, rows, kw) == Select(s, rows, Conditions(s, kw))
  {
    ConditionsAreKnownPairs(s, kw);
    forall id | id in rows
      ensures MatchesAll(s, rows[id], kw) <==> MatchesAll(s, rows[id], Conditions(s, kw))
    {
    }
  }
}
