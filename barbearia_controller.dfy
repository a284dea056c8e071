/**
 * The shop administration handlers (backend/controllers/barbeariaController.js):
 * the listing of every shop, newest first, and the update of a shop's
 * status and plan. Neither filters by the caller's shop.
 */
module BarbeariaController {
  import opened Wrappers
  import opened Tables

  /** Some shop of a non-empty table is at least as recent as every other. */
  lemma {:induction false} NewestExists(rows: map<Id, Barbearia>)
    requires rows != map[]
    ensures exists k :: k in rows && forall j :: j in rows ==> rows[j].createdAt <= rows[k].createdAt
    decreases |rows|
  {
    var a :| a in rows;
    var rest := rows - {a};
    assert rest.Keys == rows.Keys - {a};
    if rest == map[] {
      assert rest.Keys == {};
      assert rows.Keys == {a};
    } else {
      assert |rest.Keys| < |rows.Keys|;
      NewestExists(rest);
      var b :| b in rest && forall j :: j in rest ==> rest[j].createdAt <= rest[b].createdAt;
      if rows[a].createdAt <= rows[b].createdAt {
        assert forall j :: j in rows ==> rows[j].createdAt <= rows[b].createdAt by {
          forall j | j in rows ensures rows[j].createdAt <= rows[b].createdAt {
            if j != a { assert j in rest; }
          }
        }
      } else {
        assert forall j :: j in rows ==> rows[j].createdAt <= rows[a].createdAt by {
          forall j | j in rows ensures rows[j].createdAt <= rows[a].createdAt {
            if j != a { assert j in rest; }
          }
        }
      }
    }
  }

  /** The shop ids a listing mentions. */
  ghost function IdsOf(r: seq<(Id, Barbearia)>): set<Id> {
    set i | 0 <= i < |r| :: r[i].0
  }

  /**
   * `r` lists every shop of `rows` exactly once, each with its own row,
   * ordered by `created_at` descending.
   */
  ghost predicate NewestFirst(rows: map<Id, Barbearia>, r: seq<(Id, Barbearia)>) {
    && |r| == |rows|
    && (forall i :: 0 <= i < |r| ==> r[i].0 in rows && r[i].1 == rows[r[i].0])
    && IdsOf(r) == rows.Keys
    && (forall i, j :: 0 <= i < j < |r| ==> r[i].0 != r[j].0)
    && (forall i, j :: 0 <= i < j < |r| ==> r[i].1.createdAt >= r[j].1.createdAt)
  }

  /** Prepending an entry adds its id to the listed ids. */
  lemma IdsOfPrepend(e: (Id, Barbearia), tail: seq<(Id, Barbearia)>)
    ensures IdsOf([e] + tail) == {e.0} + IdsOf(tail)
  {
    var r := [e] + tail;
    forall x | x in IdsOf(tail) ensures x in IdsOf(r) {
      var i :| 0 <= i < |tail| && tail[i].0 == x;
      assert r[i + 1].0 == x;
    }
    assert r[0].0 == e.0;
  }

  /** Every entry of the extended listing is a shop of the table with its own row. */
  lemma PrependKeepsRows(rows: map<Id, Barbearia>, k: Id, tail: seq<(Id, Barbearia)>)
    requires k in rows
    requires forall i :: 0 <= i < |tail| ==> tail[i].0 in rows - {k} && tail[i].1 == (rows - {k})[tail[i].0]
    ensures var r := [(k, rows[k])] + tail;
      forall i :: 0 <= i < |r| ==> r[i].0 in rows && r[i].1 == rows[r[i].0]
  {
    var r := [(k, rows[k])] + tail;
    forall i | 0 <= i < |r| ensures r[i].0 in rows && r[i].1 == rows[r[i].0] {
      if i > 0 {
        assert r[i] == tail[i - 1];
      }
    }
  }

  /** A newest shop in front of a newest-first listing of the others keeps ids distinct and the order. */
  lemma PrependKeepsOrder(rows: map<Id, Barbearia>, k: Id, tail: seq<(Id, Barbearia)>)
    requires k in rows && forall j :: j in rows ==> rows[j].createdAt <= rows[k].createdAt
    requires forall i :: 0 <= i < |tail| ==> tail[i].0 in rows - {k} && tail[i].1 == (rows - {k})[tail[i].0]
    requires forall i, j :: 0 <= i < j < |tail| ==> tail[i].0 != tail[j].0
    requires forall i, j :: 0 <= i < j < |tail| ==> tail[i].1.createdAt >= tail[j].1.createdAt
    ensures var r := [(k, rows[k])] + tail;
      forall i, j :: 0 <= i < j < |r| ==> r[i].0 != r[j].0 && r[i].1.createdAt >= r[j].1.createdAt
  {
    var r := [(k, rows[k])] + tail;
    forall i, j | 0 <= i < j < |r| ensures r[i].0 != r[j].0 && r[i].1.createdAt >= r[j].1.createdAt {
      assert r[j] == tail[j - 1] && tail[j - 1].0 in rows - {k};
      if i > 0 {
        assert r[i] == tail[i - 1];
      }
    }
  }

  /** Putting a newest shop in front of a listing of the others lists the whole table. */
  lemma {:induction false} PrependNewest(rows: map<Id, Barbearia>, k: Id, tail: seq<(Id, Barbearia)>)
    requires k in rows && forall j :: j in rows ==> rows[j].createdAt <= rows[k].createdAt
    requires NewestFirst(rows - {k}, tail)
    ensures NewestFirst(rows, [(k, rows[k])] + tail)
  {
    assert (rows - {k}).Keys == rows.Keys - {k};
    assert |(rows - {k}).Keys| + 1 == |rows.Keys|;
    PrependKeepsRows(rows, k, tail);
    PrependKeepsOrder(rows, k, tail);
    IdsOfPrepend((k, rows[k]), tail);
  }

  /**
   * `list`: every shop exactly once, each with its own row, ordered by
   * `created_at` descending. Shops created at the same instant come in an
   * order the database chooses; the model picks one.
   */
  ghost function List(rows: map<Id, Barbearia>): (r: seq<(Id, Barbearia)>)
    ensures NewestFirst(rows, r)
    decreases |rows|
  {
    if rows == map[] then []
    else
      NewestExists(rows);
      var k :| k in rows && forall j :: j in rows ==> rows[j].createdAt <= rows[k].createdAt;
      assert (rows - {k}).Keys == rows.Keys - {k};
      var tail := List(rows - {k});
      PrependNewest(rows, k, tail);
      [(k, rows[k])] + tail
  }

  /** The listing's first entry is a newest shop. */
  lemma ListStartsWithNewest(rows: map<Id, Barbearia>, k: Id)
    requires k in rows
    ensures |List(rows)| > 0 && List(rows)[0].1.createdAt >= rows[k].createdAt
  {
    var r := List(rows);
    assert k in IdsOf(r);
    var i :| 0 <= i < |r| && r[i].0 == k;
    assert r[i].1 == rows[k];
  }

  /**
   * The shop after an update: `status` and `plano` are replaced when the
   * request carries them; name, slug and creation time never change.
   */
  function ApplyUpdate(row: Barbearia, status: Option<string>, plano: Option<string>): (r: Barbearia)
    ensures r.nome == row.nome && r.slug == row.slug && r.createdAt == row.createdAt
    ensures r.status == status.GetOr(row.status) && r.plano == plano.GetOr(row.plano)
  {
    row.(status := status.GetOr(row.status), plano := plano.GetOr(row.plano))
  }

  /** Updates the shop with this id, if any; every other shop stays. */
  function UpdateById(rows: map<Id, Barbearia>, id: Id, status: Option<string>, plano: Option<string>)
    : (r: map<Id, Barbearia>)
    ensures r.Keys == rows.Keys
    ensures forall k :: k in rows && k != id ==> r[k] == rows[k]
    ensures id in rows ==> r[id] == ApplyUpdate(rows[id], status, plano)
  {
    if id in rows then rows[id := ApplyUpdate(rows[id], status, plano)] else rows
  }

  /** `update`: 200 with the updated shop, or with no body when no shop has the id. */
  method Update(db: Db, id: Id, status: Option<string>, plano: Option<string>) returns (r: Reply<Option<Barbearia>>)
    modifies db`barbearias
    ensures db.barbearias == UpdateById(old(db.barbearias), id, status, plano)
    ensures id in old(db.barbearias) ==> r == Ok(200, Some(ApplyUpdate(old(db.barbearias)[id], status, plano)))
    ensures id !in old(db.barbearias) ==> r == Ok(200, None)
  {
    if id in db.barbearias {
      var row := ApplyUpdate(db.barbearias[id], status, plano);
      db.barbearias := db.barbearias[id := row];
      return Ok(200, Some(row));
    }
    return Ok(200, None);
  }

  /** An update never changes a shop's slug, so the public lookup by slug still finds the same shops. */
  lemma UpdateKeepsSlugs(rows: map<Id, Barbearia>, id: Id, status: Option<string>, plano: Option<string>, slug: string)
    ensures (set k | k in UpdateById(rows, id, status, plano) && UpdateById(rows, id, status, plano)[k].slug == slug)
         == (set k | k in rows && rows[k].slug == slug)
  {
  }
}
