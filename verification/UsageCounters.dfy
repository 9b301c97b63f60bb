/** Usage counters collected in a buffer under string keys and written to the database in
    batches. */
module UsageCounters {
  import opened Prelude
  import opened Strings

  datatype Triple = Triple(tenant: Option<string>, user: Option<string>, metric: string)

  // A table row, and also the content of one upsert: `window` is the start of an hour.
  datatype Row = Row(triple: Triple, window: int, amount: int)

  const BATCH_SIZE: nat := 50

  function HourOf(now: int): int {
    now / HOUR * HOUR
  }

  /******* Keys *******/

  function Part(id: Option<string>): string {
    if id.None? || id.value == "" then "none" else id.value
  }

  function Unpart(part: string): Option<string> {
    if part == "none" then None else Some(part)
  }

  function Encode(t: Triple): string {
    Part(t.tenant) + [':'] + (Part(t.user) + [':'] + t.metric)
  }

  // What stands before the first colon, and what after it.
  function SplitOnce(s: string): Option<(string, string)> {
    if s == "" then None
    else if s[0] == ':' then Some(("", s[1..]))
    else
      match SplitOnce(s[1..])
      case None => None
      case Some((a, b)) => Some(([s[0]] + a, b))
  }

  // None where unpacking the split key into three parts raises.
  function Decode(key: string): Option<Triple> {
    match SplitOnce(key)
    case None => None
    case Some((a, rest)) =>
      match SplitOnce(rest)
      case None => None
      case Some((b, metric)) => Some(Triple(Unpart(a), Unpart(b), metric))
  }

  lemma {:induction false} SplitMeans(s: string)
    ensures SplitOnce(s).None? <==> ':' !in s
    ensures SplitOnce(s).Some? ==> var (a, b) := SplitOnce(s).value; ':' !in a && s == a + [':'] + b
  {
    if s != "" {
      SplitMeans(s[1..]);
      assert s == [s[0]] + s[1..];
    }
  }

  lemma SplitOf(a: string, b: string)
    requires ':' !in a
    ensures SplitOnce(a + [':'] + b) == Some((a, b))
  {
    var s := a + [':'] + b;
    SplitMeans(s);
    assert ':' in s by { assert s[|a|] == ':'; }
    var (x, y) := SplitOnce(s).value;
    SplitUnique(x, y, a, b, ':');
  }

  lemma DecodeMeans(key: string, t: Triple)
    requires Decode(key) == Some(t)
    ensures (exists a: string, b: string ::
      ':' !in a && ':' !in b && t == Triple(Unpart(a), Unpart(b), t.metric)
        && key == a + [':'] + (b + [':'] + t.metric))
  {
    SplitMeans(key);
    SplitMeans(SplitOnce(key).value.1);
  }

  predicate PlainPart(id: Option<string>) {
    id.Some? ==> id.value != "" && id.value != "none" && ':' !in id.value
  }

  predicate Plain(t: Triple) {
    PlainPart(t.tenant) && PlainPart(t.user)
  }

  // Whatever the metric contains, a key is decoded to the triple it was made from exactly
  // when tenant and user are absent, or not empty, free of colons and not the word "none".
  lemma RoundTripExactly(t: Triple)
    ensures Decode(Encode(t)) == Some(t) <==> Plain(t)
  {
    var a, rest := Part(t.tenant), Part(t.user) + [':'] + t.metric;
    if ':' !in a {
      SplitOf(a, rest);
      if ':' !in Part(t.user) {
        SplitOf(Part(t.user), t.metric);
      } else {
        SplitMeans(rest);
      }
    } else {
      SplitMeans(Encode(t));
    }
  }

  // Every key the service builds can be unpacked again.
  lemma EncodedIsDecodable(t: Triple)
    ensures Decode(Encode(t)).Some?
  {
    var key := Encode(t);
    var a := Part(t.tenant);
    var rest := Part(t.user) + [':'] + t.metric;
    assert ':' in key by { assert key[|a|] == ':'; }
    SplitMeans(key);
    var (x, y) := SplitOnce(key).value;
    if ':' !in a {
      SplitOf(a, rest);
      assert rest[|Part(t.user)|] == ':';
    } else {
      var i :| 0 <= i < |a| && a[i] == ':';
      assert key[i] == ':';
      assert forall k :: 0 <= k < |x| ==> key[k] == x[k];
      assert key[|a|] == ':' && key[|a|] == y[|a| - |x| - 1];
    }
    SplitMeans(y);
  }

  // No two keys stand for the same triple.
  lemma DecodeInjective(k: string, l: string)
    requires Decode(k).Some? && Decode(k) == Decode(l)
    ensures k == l
  {
    var t := Decode(k).value;
    DecodeMeans(k, t);
    DecodeMeans(l, t);
    assert forall x: string, y: string :: Unpart(x) == Unpart(y) ==> x == y;
  }

  // Hence distinct plain triples never share a slot of the buffer.
  lemma SlotsAreSeparate(t: Triple, u: Triple)
    requires Plain(t) && Plain(u) && Encode(t) == Encode(u)
    ensures t == u
  {
    RoundTripExactly(t);
    RoundTripExactly(u);
  }

  /******* The table *******/

  function Total(rows: seq<Row>, t: Triple): int {
    if rows == [] then 0
    else (if rows[0].triple == t then rows[0].amount else 0) + Total(rows[1..], t)
  }

  // NULLs are distinct in a unique constraint, so a row with an absent id never conflicts.
  predicate Conflicts(present: Row, row: Row) {
    present.triple == row.triple && present.window == row.window && row.triple.tenant.Some? && row.triple.user.Some?
  }

  function Upsert(db: seq<Row>, row: Row): seq<Row> {
    if db == [] then [row]
    else if Conflicts(db[0], row) then [db[0].(amount := db[0].amount + row.amount)] + db[1..]
    else [db[0]] + Upsert(db[1..], row)
  }

  function UpsertAll(db: seq<Row>, rows: seq<Row>): seq<Row>
    decreases |rows|
  {
    if rows == [] then db else UpsertAll(Upsert(db, rows[0]), rows[1..])
  }

  // The service for single updates looks for a row of the same triple and window itself.
  function DirectUpsert(db: seq<Row>, row: Row): seq<Row> {
    if db == [] then [row]
    else if db[0].triple == row.triple && db[0].window == row.window then
      [db[0].(amount := db[0].amount + row.amount)] + db[1..]
    else [db[0]] + DirectUpsert(db[1..], row)
  }

  lemma {:induction false} TotalAppend(a: seq<Row>, b: seq<Row>, t: Triple)
    ensures Total(a + b, t) == Total(a, t) + Total(b, t)
  {
    if a == [] {
      assert a + b == b;
    } else {
      assert (a + b)[1..] == a[1..] + b;
      TotalAppend(a[1..], b, t);
    }
  }

  lemma {:induction false} UpsertAdds(db: seq<Row>, row: Row, t: Triple)
    ensures Total(Upsert(db, row), t) == Total(db, t) + (if row.triple == t then row.amount else 0)
  {
    if db != [] {
      UpsertAdds(db[1..], row, t);
    }
  }

  lemma {:induction false} DirectAdds(db: seq<Row>, row: Row, t: Triple)
    ensures Total(DirectUpsert(db, row), t) == Total(db, t) + (if row.triple == t then row.amount else 0)
  {
    if db != [] {
      DirectAdds(db[1..], row, t);
    }
  }

  lemma {:induction false} UpsertAllAdds(db: seq<Row>, rows: seq<Row>, t: Triple)
    ensures Total(UpsertAll(db, rows), t) == Total(db, t) + Total(rows, t)
    decreases |rows|
  {
    if rows != [] {
      UpsertAdds(db, rows[0], t);
      UpsertAllAdds(Upsert(db, rows[0]), rows[1..], t);
    }
  }

  /******* The buffer *******/

  function Get(m: map<string, int>, k: string): int {
    if k in m then m[k] else 0
  }

  function Add(m: map<string, int>, k: string, amount: int): map<string, int> {
    m[k := Get(m, k) + amount]
  }
}
