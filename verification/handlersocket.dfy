/** `HandlerSocketMySql::insert` and `escapeWhitespaces`: inserts through the
    HandlerSocket plugin, with a per-instance cache that hands out index ids
    1, 2, 3, … to the (table, columns) pairs it opens. The HandlerSocket extension is
    an oracle: each insert receives its answers and returns the calls made to it. */
module IndexCache {
  import opened Wrappers
  import opened Chars
  import opened HandlerSocketErrors

  // ---------------------------------------------------------------- columns

  /** `escapeWhitespaces`: `preg_replace("~\s+~", "", s)` removes every whitespace
      character. */
  function StripWhitespace(s: string): (r: string)
    ensures |r| <= |s|
    ensures forall i :: 0 <= i < |r| ==> !IsSpace(r[i])
  {
    if |s| == 0 then ""
    else if IsSpace(s[0]) then StripWhitespace(s[1..])
    else [s[0]] + StripWhitespace(s[1..])
  }

  /** A string without whitespace is left as it is. */
  lemma {:induction false} StripKeepsPlainText(s: string)
    requires forall i :: 0 <= i < |s| ==> !IsSpace(s[i])
    ensures StripWhitespace(s) == s
  {
    if |s| > 0 {
      StripKeepsPlainText(s[1..]);
      assert s == [s[0]] + s[1..];
    }
  }

  /** Stripping twice is stripping once. */
  lemma StripIdempotent(s: string)
    ensures StripWhitespace(StripWhitespace(s)) == StripWhitespace(s)
  {
    StripKeepsPlainText(StripWhitespace(s));
  }

  /** Stripping works piece by piece. */
  lemma {:induction false} StripAppend(a: string, b: string)
    ensures StripWhitespace(a + b) == StripWhitespace(a) + StripWhitespace(b)
  {
    if |a| > 0 {
      assert (a + b)[0] == a[0];
      assert (a + b)[1..] == a[1..] + b;
      StripAppend(a[1..], b);
    } else {
      assert a + b == b;
    }
  }

  /** Whitespace inserted anywhere disappears. */
  lemma StripIgnoresInsertedSpace(a: string, c: char, b: string)
    requires IsSpace(c)
    ensures StripWhitespace(a + [c] + b) == StripWhitespace(a + b)
  {
    StripAppend(a + [c], b);
    StripAppend(a, [c]);
    StripAppend(a, b);
    assert StripWhitespace([c]) == "" + StripWhitespace([c][1..]);
  }

  // ---------------------------------------------------------------- cache keys

  /** The key under which the code caches an index: the table name and the stripped
      column list run together. */
  function KeyAsWritten(table: string, columns: string): seq<string>
  {
    [table + StripWhitespace(columns)]
  }

  /** The key with the table and the column list kept apart. */
  function Key(table: string, columns: string): seq<string>
  {
    [table, StripWhitespace(columns)]
  }

  /** Two different tables can share an as-written key. */
  lemma KeyAsWrittenCollides()
    ensures KeyAsWritten("user", "sid") == KeyAsWritten("users", "id")
  {
    StripKeepsPlainText("sid");
    StripKeepsPlainText("id");
    assert "user" + "sid" == "usersid" == "users" + "id";
  }

  /** The separated key names exactly one table and one stripped column list. */
  lemma KeyInjective(t1: string, c1: string, t2: string, c2: string)
    ensures Key(t1, c1) == Key(t2, c2) <==> t1 == t2 && StripWhitespace(c1) == StripWhitespace(c2)
  {
    if Key(t1, c1) == Key(t2, c2) {
      assert Key(t1, c1)[0] == Key(t2, c2)[0];
      assert Key(t1, c1)[1] == Key(t2, c2)[1];
    }
  }

  // ---------------------------------------------------------------- writer

  /** The fields of an instance: whether `_handlerSocket` holds a writer, the
      database, `_indexes` and `_lastOpenIndex`. */
  datatype Writer = Writer(connected: bool, dbName: string, indexes: map<seq<string>, nat>, lastOpenIndex: nat)

  /** A new instance: no writer, nothing cached. */
  function NewWriter(dbName: string): Writer
  {
    Writer(false, dbName, map[], 0)
  }

  /** The extension's answers for one insert: whether constructing the writer throws
      (and its message), what `openIndex` and `executeInsert` report, and
      `getError()`. */
  datatype Channel = Channel(connectError: Option<string>, openOk: bool, insertOk: bool, error: string)

  /** The calls an insert makes to the extension. */
  datatype HsCall =
    | ConnectWriter
    | OpenIndex(id: nat, dbName: string, table: string, columns: string)
    | ExecuteInsert(id: nat, values: seq<string>)

  /** The instance after an insert, its return value or exception message, and its calls. */
  datatype InsertStep = InsertStep(writer: Writer, out: Result<bool, string>, calls: seq<HsCall>)

  /** The cache hands out ids 1 to `lastOpenIndex`, one per key. */
  predicate Valid(w: Writer)
  {
    ValidCache(w.indexes, w.lastOpenIndex)
  }

  predicate ValidCache(indexes: map<seq<string>, nat>, last: nat)
  {
    && |indexes| == last
    && (forall k :: k in indexes ==> 1 <= indexes[k] <= last)
    && (forall k1, k2 :: k1 in indexes && k2 in indexes && indexes[k1] == indexes[k2] ==> k1 == k2)
  }

  /** Recording a new key under the next id keeps the cache valid. */
  lemma RecordKeepsValid(indexes: map<seq<string>, nat>, last: nat, key: seq<string>)
    requires ValidCache(indexes, last) && key !in indexes
    ensures ValidCache(indexes[key := last + 1], last + 1)
  {
    assert |indexes[key := last + 1]| == |indexes| + 1;
  }

  /** The index id cached under `key`, or 0 (`empty($index)`) if there is none. */
  function Cached(w: Writer, key: seq<string>): nat
  {
    if key in w.indexes then w.indexes[key] else 0
  }

  /** `executeInsert` on index `id`: true on success, and on failure true if the error
      code is one the caller ignores, otherwise an exception naming the table. */
  function Execute(w: Writer, id: nat, table: string, values: seq<string>, ignore: seq<string>,
                   ch: Channel, calls: seq<HsCall>): (r: InsertStep)
    ensures r.writer == w && r.calls == calls + [ExecuteInsert(id, values)]
    ensures r.out.Ok? <==> ch.insertOk || ch.error in ignore
    ensures r.out.Ok? ==> r.out.value
  {
    var done := calls + [ExecuteInsert(id, values)];
    if ch.insertOk || ch.error in ignore then InsertStep(w, Ok(true), done)
    else InsertStep(w, Err("HandlerSocket " + table + " failed. Message: " + NormalError(ch.error)), done)
  }

  /** `insert` with the cache key given: connect the writer if there is none
      (an exception from the extension becomes `Connect error: …`); on a cache miss
      take the next id, record it under the key, and only then open the index,
      raising if that fails; finally execute the insert. Other keys' entries are
      never changed, a key holding an id keeps it, and once the writer is up the key
      is cached. */
  function InsertWithKey(w: Writer, key: seq<string>, table: string, columns: string, values: seq<string>,
                         ignore: seq<string>, ch: Channel): (r: InsertStep)
    ensures r.out.Ok? ==> r.out.value
    ensures ConnectWriter in r.calls <==> !w.connected
    ensures r.writer.connected <==> w.connected || ch.connectError.None?
    ensures r.writer.dbName == w.dbName
    ensures key in r.writer.indexes <==> key in w.indexes || r.writer.connected
    ensures forall k :: k in w.indexes && k != key ==> k in r.writer.indexes && r.writer.indexes[k] == w.indexes[k]
    ensures Cached(w, key) != 0 ==> r.writer.indexes == w.indexes
  {
    var cols := StripWhitespace(columns);
    if !w.connected && ch.connectError.Some? then
      InsertStep(w, Err("Connect error: " + ch.connectError.value + "\n"), [ConnectWriter])
    else
      var w1 := w.(connected := true);
      var calls1 := if w.connected then [] else [ConnectWriter];
      var cached := Cached(w, key);
      if cached == 0 then
        var id := w.lastOpenIndex + 1;
        var w2 := w1.(indexes := w.indexes[key := id], lastOpenIndex := id);
        var calls2 := calls1 + [OpenIndex(id, w.dbName, table, cols)];
        if !ch.openOk then
          InsertStep(w2, Err("HandlerSocket " + table + " failed to connect. Message: " + NormalError(ch.error)), calls2)
        else Execute(w2, id, table, values, ignore, ch, calls2)
      else Execute(w1, cached, table, values, ignore, ch, calls1)
  }

  /** `insert` as written, caching under the table name and columns run together. */
  function InsertAsWritten(w: Writer, table: string, columns: string, values: seq<string>,
                           ignore: seq<string>, ch: Channel): (r: InsertStep)
    ensures r.out.Ok? ==> r.out.value
    ensures ConnectWriter in r.calls <==> !w.connected
    ensures r.writer.connected <==> w.connected || ch.connectError.None?
    ensures r.writer.dbName == w.dbName
  {
    InsertWithKey(w, KeyAsWritten(table, columns), table, columns, values, ignore, ch)
  }

  /** `insert($table, $rows, $values, $ignoreErrors)`, caching under the table name
      and the stripped columns kept apart. */
  function Insert(w: Writer, table: string, columns: string, values: seq<string>,
                  ignore: seq<string>, ch: Channel): (r: InsertStep)
    ensures r.out.Ok? ==> r.out.value
    ensures ConnectWriter in r.calls <==> !w.connected
    ensures r.writer.connected <==> w.connected || ch.connectError.None?
    ensures r.writer.dbName == w.dbName
  {
    InsertWithKey(w, Key(table, columns), table, columns, values, ignore, ch)
  }

  /** After a user table with columns `sid`, an insert into `users` with columns
      `id` finds the as-written cache filled and executes on the index opened for
      the other table, without opening one of its own. */
  lemma InsertAsWrittenUsesWrongIndex(values: seq<string>, ch: Channel)
    requires ch.connectError.None? && ch.openOk
    ensures var first := InsertAsWritten(NewWriter("db"), "user", "sid", values, [], ch);
      var second := InsertAsWritten(first.writer, "users", "id", values, [], ch);
      && OpenIndex(1, "db", "user", "sid") in first.calls
      && second.calls == [ExecuteInsert(1, values)]
  {
    KeyAsWrittenCollides();
    StripKeepsPlainText("sid");
    StripKeepsPlainText("id");
  }

  /** With the separated key, the second table opens an index of its own. */
  lemma InsertOpensPerTable(values: seq<string>, ch: Channel)
    requires ch.connectError.None? && ch.openOk
    ensures var first := Insert(NewWriter("db"), "user", "sid", values, [], ch);
      var second := Insert(first.writer, "users", "id", values, [], ch);
      && OpenIndex(1, "db", "user", "sid") in first.calls
      && second.calls == [OpenIndex(2, "db", "users", "id"), ExecuteInsert(2, values)]
  {
    StripKeepsPlainText("sid");
    StripKeepsPlainText("id");
    KeyInjective("user", "sid", "users", "id");
  }

  // ---------------------------------------------------------------- properties

  // The properties below hold for any cache key, so for the code as written
  // (`KeyAsWritten`) as well as for the separated key (`Key`).

  /** Inserting keeps the cache well formed: a new key gets the next id, and ids are
      never reused. */
  lemma InsertWithKeyKeepsValid(w: Writer, key: seq<string>, table: string, columns: string,
                                values: seq<string>, ignore: seq<string>, ch: Channel)
    requires Valid(w)
    ensures Valid(InsertWithKey(w, key, table, columns, values, ignore, ch).writer)
  {
    var r := InsertWithKey(w, key, table, columns, values, ignore, ch);
    if Cached(w, key) == 0 && !(!w.connected && ch.connectError.Some?) {
      assert key !in w.indexes;
      RecordKeepsValid(w.indexes, w.lastOpenIndex, key);
      assert r.writer.indexes == w.indexes[key := w.lastOpenIndex + 1];
    }
  }

  lemma InsertKeepsValid(w: Writer, table: string, columns: string, values: seq<string>,
                         ignore: seq<string>, ch: Channel)
    requires Valid(w)
    ensures Valid(Insert(w, table, columns, values, ignore, ch).writer)
  {
    InsertWithKeyKeepsValid(w, Key(table, columns), table, columns, values, ignore, ch);
  }

  lemma InsertAsWrittenKeepsValid(w: Writer, table: string, columns: string, values: seq<string>,
                                  ignore: seq<string>, ch: Channel)
    requires Valid(w)
    ensures Valid(InsertAsWritten(w, table, columns, values, ignore, ch).writer)
  {
    InsertWithKeyKeepsValid(w, KeyAsWritten(table, columns), table, columns, values, ignore, ch);
  }

  /** On a cache hit no index is opened and the cache is unchanged. */
  lemma CacheHitSkipsOpen(w: Writer, key: seq<string>, table: string, columns: string, values: seq<string>,
                          ignore: seq<string>, ch: Channel)
    requires Valid(w) && key in w.indexes
    ensures var r := InsertWithKey(w, key, table, columns, values, ignore, ch);
      && (forall c :: c in r.calls ==> !c.OpenIndex?)
      && r.writer.indexes == w.indexes && r.writer.lastOpenIndex == w.lastOpenIndex
      && (w.connected || ch.connectError.None? ==> ExecuteInsert(w.indexes[key], values) in r.calls)
  {
  }

  /** On a cache miss the next id is recorded under the key before the index is
      opened, so it stays cached even when opening fails and the insert raises. */
  lemma CacheMissRecordsFirst(w: Writer, key: seq<string>, table: string, columns: string, values: seq<string>,
                              ignore: seq<string>, ch: Channel)
    requires Valid(w) && key !in w.indexes
    requires w.connected || ch.connectError.None?
    ensures var r := InsertWithKey(w, key, table, columns, values, ignore, ch);
      var id := w.lastOpenIndex + 1;
      && r.writer.indexes == w.indexes[key := id]
      && r.writer.lastOpenIndex == id
      && OpenIndex(id, w.dbName, table, StripWhitespace(columns)) in r.calls
      && (!ch.openOk ==> r.out.Err? && ExecuteInsert(id, values) !in r.calls)
  {
  }

  /** After an open that failed, the same key skips opening and executes on the id
      recorded by the failed call. */
  lemma FailedOpenStaysCached(w: Writer, key: seq<string>, table: string, columns: string, values: seq<string>,
                              ignore: seq<string>, ch: Channel, ch2: Channel)
    requires Valid(w) && key !in w.indexes
    requires (w.connected || ch.connectError.None?) && !ch.openOk
    ensures var first := InsertWithKey(w, key, table, columns, values, ignore, ch);
      var second := InsertWithKey(first.writer, key, table, columns, values, ignore, ch2);
      && first.out.Err?
      && second.calls == [ExecuteInsert(w.lastOpenIndex + 1, values)]
  {
    InsertWithKeyKeepsValid(w, key, table, columns, values, ignore, ch);
  }

  /** Column lists that differ only in whitespace share one index, with either key. */
  lemma WhitespaceInsensitive(w: Writer, table: string, c1: string, c2: string, values: seq<string>,
                              ignore: seq<string>, ch: Channel)
    requires StripWhitespace(c1) == StripWhitespace(c2)
    ensures Insert(w, table, c1, values, ignore, ch) == Insert(w, table, c2, values, ignore, ch)
    ensures InsertAsWritten(w, table, c1, values, ignore, ch) == InsertAsWritten(w, table, c2, values, ignore, ch)
  {
  }

  /** A failed `executeInsert` is swallowed exactly when its error code is listed in
      `ignore`; otherwise the insert raises with the normalised error. */
  lemma IgnoredErrors(w: Writer, key: seq<string>, table: string, columns: string, values: seq<string>,
                      ignore: seq<string>, ch: Channel)
    requires w.connected && key in w.indexes && Valid(w) && !ch.insertOk
    ensures var r := InsertWithKey(w, key, table, columns, values, ignore, ch);
      && (ch.error in ignore ==> r.out == Ok(true))
      && (ch.error !in ignore ==>
            r.out == Err("HandlerSocket " + table + " failed. Message: " + NormalError(ch.error)))
  {
  }
}
