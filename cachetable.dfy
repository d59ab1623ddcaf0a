/** The apiCache table of CTAWrapper.php and the three statements the core
    runs against it (checkCache, setCache, deleteCache), as functions from
    the table before to the table after. Times are whole seconds. */
module CacheTable {
  import opened Strings

  /** A cached response is dropped once it is this many seconds old. */
  const Ttl: int := 60

  /** A row of apiCache: id INTEGER PRIMARY KEY, url, data, time. */
  datatype Row = Row(id: int, url: Bytes, data: Bytes, time: int)

  /** SELECT id,url,data,time FROM apiCache WHERE url = :url */
  function Select(t: seq<Row>, url: Bytes): (r: seq<Row>)
    ensures |r| <= |t|
  {
    if |t| == 0 then [] else (if t[0].url == url then [t[0]] else []) + Select(t[1..], url)
  }

  /** DELETE FROM apiCache WHERE url = :url */
  function Delete(t: seq<Row>, url: Bytes): (r: seq<Row>)
    ensures |r| <= |t|
  {
    if |t| == 0 then [] else (if t[0].url == url then [] else [t[0]]) + Delete(t[1..], url)
  }

  function MaxId(t: seq<Row>): (m: int)
    ensures m >= 0
    ensures forall i :: 0 <= i < |t| ==> t[i].id <= m
  {
    if |t| == 0 then 0
    else var rest := MaxId(t[1..]); if t[0].id > rest then t[0].id else rest
  }

  /** The rowid SQLite gives a new row: one more than the largest in use. */
  function NextId(t: seq<Row>): int
  {
    MaxId(t) + 1
  }

  /** INSERT INTO apiCache (url,data,time) VALUES (:url,:data,now) */
  function Insert(t: seq<Row>, url: Bytes, data: Bytes, now: int): seq<Row>
  {
    t + [Row(NextId(t), url, data, now)]
  }

  /** The age test of checkCache: stored at or before one minute ago. */
  predicate Expired(row: Row, now: int)
  {
    row.time <= now - Ttl
  }

  /** What checkCache reports: the cached data, false, or (Double) the
      exception for more than one row. */
  datatype Lookup = Hit(data: Bytes) | Miss | Double

  datatype Checked = Checked(result: Lookup, table: seq<Row>)

  /** checkCache(url) at time `now`. */
  function Check(t: seq<Row>, url: Bytes, now: int): Checked
  {
    var found := Select(t, url);
    if |found| == 0 then Checked(Miss, t)
    else if |found| != 1 then Checked(Double, t)
    else if Expired(found[0], now) then Checked(Miss, Delete(t, url))
    else Checked(Hit(found[0].data), t)
  }

  /** At most one row per url. */
  ghost predicate UniqueUrls(t: seq<Row>)
  {
    forall u :: |Select(t, u)| <= 1
  }

  /** The primary key holds: no two rows share an id. */
  predicate DistinctIds(t: seq<Row>)
  {
    forall i, j :: 0 <= i < j < |t| ==> t[i].id != t[j].id
  }

  lemma {:induction false} SelectMember(t: seq<Row>, url: Bytes, row: Row)
    ensures row in Select(t, url) <==> row in t && row.url == url
  {
    if |t| > 0 {
      SelectMember(t[1..], url, row);
      assert t == [t[0]] + t[1..];
    }
  }

  lemma {:induction false} SelectAppend(t: seq<Row>, row: Row, url: Bytes)
    ensures Select(t + [row], url) == Select(t, url) + (if row.url == url then [row] else [])
  {
    if |t| == 0 {
      assert [row][1..] == [];
    } else {
      assert (t + [row])[1..] == t[1..] + [row];
      SelectAppend(t[1..], row, url);
    }
  }

  lemma {:induction false} DeleteAppend(t: seq<Row>, row: Row, url: Bytes)
    ensures Delete(t + [row], url) == Delete(t, url) + (if row.url == url then [] else [row])
  {
    if |t| == 0 {
      assert [row][1..] == [];
    } else {
      assert (t + [row])[1..] == t[1..] + [row];
      DeleteAppend(t[1..], row, url);
    }
  }

  /** deleteCache removes exactly the rows of its url: none of them is
      left, and every other url selects the same rows as before. */
  lemma {:induction false} DeleteSelect(t: seq<Row>, url: Bytes, other: Bytes)
    ensures Select(Delete(t, url), other) == if other == url then [] else Select(t, other)
  {
    if |t| > 0 {
      DeleteSelect(t[1..], url, other);
      var head := if t[0].url == url then [] else [t[0]];
      assert Delete(t, url) == head + Delete(t[1..], url);
      SelectConcat(head, Delete(t[1..], url), other);
    }
  }

  lemma {:induction false} SelectConcat(a: seq<Row>, b: seq<Row>, url: Bytes)
    ensures Select(a + b, url) == Select(a, url) + Select(b, url)
  {
    if |a| > 0 {
      assert (a + b)[1..] == a[1..] + b;
      SelectConcat(a[1..], b, url);
    } else {
      assert a + b == b;
    }
  }

  /** Deleting a url with no rows leaves the table as it was. */
  lemma {:induction false} DeleteAbsent(t: seq<Row>, url: Bytes)
    requires Select(t, url) == []
    ensures Delete(t, url) == t
  {
    if |t| > 0 {
      var head := t[0];
      assert Select(t, url) == (if head.url == url then [head] else []) + Select(t[1..], url);
      DeleteAbsent(t[1..], url);
      assert [t[0]] + t[1..] == t;
    }
  }

  /** setCache appends one row with the url, the data and the current
      time; it is the only row that changes what any url selects. */
  lemma InsertSelect(t: seq<Row>, url: Bytes, data: Bytes, now: int, other: Bytes)
    ensures Select(Insert(t, url, data, now), other) ==
      Select(t, other) + (if other == url then [Row(NextId(t), url, data, now)] else [])
  {
    SelectAppend(t, Row(NextId(t), url, data, now), other);
  }

  /** The four outcomes of checkCache. No row: a miss, nothing changes.
      Several rows: the exception, nothing changes. One expired row: every
      row of the url is deleted, then a miss. One fresh row: its data,
      nothing changes. Rows of other urls are never touched, and after a
      miss the url has no row. */
  lemma CheckOutcomes(t: seq<Row>, url: Bytes, now: int)
    ensures var c := Check(t, url, now);
      && (c.result == Double <==> |Select(t, url)| > 1)
      && (c.result.Hit? <==> |Select(t, url)| == 1 && !Expired(Select(t, url)[0], now))
      && (c.result.Hit? ==> c.result.data == Select(t, url)[0].data)
      && (c.result == Miss <==>
            |Select(t, url)| == 0 || (|Select(t, url)| == 1 && Expired(Select(t, url)[0], now)))
      && (c.result != Miss ==> c.table == t)
      && (c.result == Miss ==> Select(c.table, url) == [])
      && (forall u :: u != url ==> Select(c.table, u) == Select(t, u))
  {
    var c := Check(t, url, now);
    forall u | u != url ensures Select(c.table, u) == Select(t, u) {
      DeleteSelect(t, url, u);
    }
    if c.result == Miss && |Select(t, url)| > 0 {
      DeleteSelect(t, url, url);
    }
  }

  /** The cache round trip: data stored at `stored` for a url with no row
      comes back unchanged while it is less than 60 seconds old; from 60
      seconds on the lookup misses and the table is as it was before the
      store. */
  lemma SetThenCheck(t: seq<Row>, url: Bytes, data: Bytes, stored: int, now: int)
    requires Select(t, url) == []
    ensures now - stored < Ttl ==>
      Check(Insert(t, url, data, stored), url, now) == Checked(Hit(data), Insert(t, url, data, stored))
    ensures now - stored >= Ttl ==>
      Check(Insert(t, url, data, stored), url, now) == Checked(Miss, t)
  {
    var row := Row(NextId(t), url, data, stored);
    InsertSelect(t, url, data, stored, url);
    assert Select(Insert(t, url, data, stored), url) == [row];
    if now - stored >= Ttl {
      DeleteAppend(t, row, url);
      DeleteAbsent(t, url);
    }
  }

  /** With one row per url the exception of checkCache cannot happen. */
  lemma UniqueNeverDouble(t: seq<Row>, url: Bytes, now: int)
    requires UniqueUrls(t)
    ensures Check(t, url, now).result != Double
  {
    assert |Select(t, url)| <= 1;
  }

  /** Check, then insert on a miss (the fetch sequence) keeps one row per
      url, whatever time the new row is stamped with. */
  lemma MissThenInsertUnique(t: seq<Row>, url: Bytes, data: Bytes, now: int, stamp: int)
    requires UniqueUrls(t)
    requires Check(t, url, now).result == Miss
    ensures UniqueUrls(Insert(Check(t, url, now).table, url, data, stamp))
  {
    var c := Check(t, url, now);
    CheckOutcomes(t, url, now);
    forall u ensures |Select(Insert(c.table, url, data, stamp), u)| <= 1 {
      InsertSelect(c.table, url, data, stamp, u);
      assert |Select(t, u)| <= 1;
    }
  }

  /** checkCache keeps one row per url. */
  lemma CheckKeepsUnique(t: seq<Row>, url: Bytes, now: int)
    requires UniqueUrls(t)
    ensures UniqueUrls(Check(t, url, now).table)
  {
    var c := Check(t, url, now);
    CheckOutcomes(t, url, now);
    forall u ensures |Select(c.table, u)| <= 1 {
      assert |Select(t, u)| <= 1;
    }
  }

  /** A new row's id is above every id in use, so the primary key holds. */
  lemma InsertKeepsIds(t: seq<Row>, url: Bytes, data: Bytes, now: int)
    requires DistinctIds(t)
    ensures DistinctIds(Insert(t, url, data, now))
  {
  }

  lemma {:induction false} DeleteKeepsIds(t: seq<Row>, url: Bytes)
    requires DistinctIds(t)
    ensures DistinctIds(Delete(t, url))
    ensures forall row :: row in Delete(t, url) ==> row in t
  {
    if |t| > 0 {
      var tail := t[1..];
      DeleteKeepsIds(tail, url);
      var d := Delete(tail, url);
      if t[0].url != url {
        forall j | 0 <= j < |d| ensures t[0].id != d[j].id {
          assert d[j] in d;
          var k :| 0 <= k < |tail| && tail[k] == d[j];
          assert t[k + 1] == d[j];
        }
        assert Delete(t, url) == [t[0]] + d;
      }
    }
  }
}
