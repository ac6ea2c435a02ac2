/**
 The effects the backend has on the services around it, recorded in the order
 they happen, and views of such a trace: which paths were put to storage, which
 rows were written, which events were broadcast, which jobs were queued.
 */
module Effects {
  import opened Records
  import opened ProgressEvents

  datatype Effect =
    | RequestVariations(prompt: string, n: nat, size: string)  // the generation API call
    | Put(path: string)                                        // bytes written to the s3 disk
    | Create(row: ImageRow)                                    // Image::create, one row
    | Insert(rows: seq<ImageRow>)                              // Image::insert, one bulk write
    | Broadcast(event: ProgressEvent)                          // event(new ImageGenerationProgress)
    | Dispatch(count: int)                                     // GenerateMockImages::dispatch
    | LogError(message: string)
    | LogWarning(message: string)

  /** The values `f` picks out of a trace, in trace order. */
  function Project<U>(t: seq<Effect>, f: Effect -> Option<U>): (r: seq<U>)
    ensures |r| <= |t|
  {
    if t == [] then []
    else OptionToSeq(f(t[0])) + Project(t[1..], f)
  }

  function OptionToSeq<U>(o: Option<U>): seq<U>
  {
    match o
    case Some(u) => [u]
    case None => []
  }

  lemma ProjectOne<U>(e: Effect, f: Effect -> Option<U>)
    ensures Project([e], f) == OptionToSeq(f(e))
  {
    assert [e][1..] == [];
  }

  lemma ProjectTwo<U>(e1: Effect, e2: Effect, f: Effect -> Option<U>)
    ensures Project([e1, e2], f) == OptionToSeq(f(e1)) + OptionToSeq(f(e2))
  {
    assert [e1, e2][1..] == [e2];
    ProjectOne(e2, f);
  }

  lemma {:induction false} ProjectAppend<U>(a: seq<Effect>, b: seq<Effect>, f: Effect -> Option<U>)
    ensures Project(a + b, f) == Project(a, f) + Project(b, f)
    decreases |a|
  {
    if a == [] {
      assert a + b == b;
    } else {
      assert (a + b)[1..] == a[1..] + b;
      ProjectAppend(a[1..], b, f);
    }
  }

  function PathOf(e: Effect): Option<string> { if e.Put? then Some(e.path) else None }
  function EventOf(e: Effect): Option<ProgressEvent> { if e.Broadcast? then Some(e.event) else None }
  function InsertOf(e: Effect): Option<seq<ImageRow>> { if e.Insert? then Some(e.rows) else None }
  function CreateOf(e: Effect): Option<ImageRow> { if e.Create? then Some(e.row) else None }
  function DispatchOf(e: Effect): Option<int> { if e.Dispatch? then Some(e.count) else None }
  function RequestOf(e: Effect): Option<Effect> { if e.RequestVariations? then Some(e) else None }

  function Puts(t: seq<Effect>): seq<string> { Project(t, PathOf) }
  function Broadcasts(t: seq<Effect>): seq<ProgressEvent> { Project(t, EventOf) }
  function Inserts(t: seq<Effect>): seq<seq<ImageRow>> { Project(t, InsertOf) }
  function Creates(t: seq<Effect>): seq<ImageRow> { Project(t, CreateOf) }
  function Dispatches(t: seq<Effect>): seq<int> { Project(t, DispatchOf) }
  function Requests(t: seq<Effect>): seq<Effect> { Project(t, RequestOf) }

  /** The rows an effect writes to the `user_images` table. */
  function RowsOf(e: Effect): seq<ImageRow>
  {
    match e
    case Create(row) => [row]
    case Insert(rows) => rows
    case _ => []
  }

  /** The row's url is the storage url of a path already put to storage. */
  ghost predicate Backed(row: ImageRow, before: seq<Effect>, urlOf: string -> string)
  {
    exists p :: p in Puts(before) && urlOf(p) == row.url
  }

  /** Store-then-record: every row written in the trace points at bytes that were
      put to storage earlier in the same trace. */
  ghost predicate StoredBeforeRecorded(t: seq<Effect>, urlOf: string -> string)
  {
    forall j, row :: 0 <= j < |t| && row in RowsOf(t[j]) ==> Backed(row, t[..j], urlOf)
  }

  /** A trace with no insert and no create writes no row. */
  lemma {:induction false} NoWritesNoRows(t: seq<Effect>)
    requires Inserts(t) == [] && Creates(t) == []
    ensures forall j :: 0 <= j < |t| ==> RowsOf(t[j]) == []
    decreases |t|
  {
    if t != [] {
      assert Inserts(t) == OptionToSeq(InsertOf(t[0])) + Inserts(t[1..]);
      assert Creates(t) == OptionToSeq(CreateOf(t[0])) + Creates(t[1..]);
      NoWritesNoRows(t[1..]);
      assert forall j :: 1 <= j < |t| ==> t[j] == t[1..][j - 1];
    }
  }

  /** Appending effects that write no row keeps a trace store-then-record. */
  lemma StoredBeforeRecordedNoWrites(t: seq<Effect>, u: seq<Effect>, urlOf: string -> string)
    requires StoredBeforeRecorded(t, urlOf)
    requires Inserts(u) == [] && Creates(u) == []
    ensures StoredBeforeRecorded(t + u, urlOf)
  {
    NoWritesNoRows(u);
    var t' := t + u;
    forall j, row | 0 <= j < |t'| && row in RowsOf(t'[j])
      ensures Backed(row, t'[..j], urlOf)
    {
      if j < |t| {
        assert t'[..j] == t[..j];
        assert t'[j] == t[j];
      } else {
        assert false;
      }
    }
  }

  /** Extending a store-then-record trace by an effect whose rows are backed keeps it so. */
  lemma StoredBeforeRecordedSnoc(t: seq<Effect>, e: Effect, urlOf: string -> string)
    requires StoredBeforeRecorded(t, urlOf)
    requires forall row :: row in RowsOf(e) ==> Backed(row, t, urlOf)
    ensures StoredBeforeRecorded(t + [e], urlOf)
  {
    var t' := t + [e];
    forall j, row | 0 <= j < |t'| && row in RowsOf(t'[j])
      ensures Backed(row, t'[..j], urlOf)
    {
      if j < |t| {
        assert t'[..j] == t[..j];
        assert t'[j] == t[j];
      } else {
        assert t'[..j] == t;
      }
    }
  }

  /** Rows numbered by the table's auto-increment key, from `first` on. */
  function Numbered(rows: seq<ImageRow>, first: nat): (r: seq<StoredImage>)
    ensures |r| == |rows|
    ensures forall j :: 0 <= j < |rows| ==> r[j] == StoredImage(first + j, rows[j])
    decreases |rows|
  {
    if rows == [] then [] else [StoredImage(first, rows[0])] + Numbered(rows[1..], first + 1)
  }

  /** The `user_images` table after the writes of a trace, when its ids run
      from 1 with no gaps so that the next id is one more than its size. */
  function Persist(table: seq<StoredImage>, t: seq<Effect>): seq<StoredImage>
    decreases |t|
  {
    if t == [] then table else Persist(table + Numbered(RowsOf(t[0]), |table| + 1), t[1..])
  }

  lemma {:induction false} PersistAppend(table: seq<StoredImage>, a: seq<Effect>, b: seq<Effect>)
    ensures Persist(table, a + b) == Persist(Persist(table, a), b)
    decreases |a|
  {
    if a == [] {
      assert a + b == b;
    } else {
      assert (a + b)[1..] == a[1..] + b;
      PersistAppend(table + Numbered(RowsOf(a[0]), |table| + 1), a[1..], b);
    }
  }

  lemma PersistOne(table: seq<StoredImage>, e: Effect)
    ensures Persist(table, [e]) == table + Numbered(RowsOf(e), |table| + 1)
  {
    assert [e][1..] == [];
  }

  /** Effects that write no row leave the table as it was. */
  lemma {:induction false} PersistNoWrites(table: seq<StoredImage>, t: seq<Effect>)
    requires Inserts(t) == [] && Creates(t) == []
    ensures Persist(table, t) == table
    decreases |t|
  {
    if t != [] {
      NoWritesNoRows(t);
      assert RowsOf(t[0]) == [];
      assert table + Numbered([], |table| + 1) == table;
      assert Inserts(t) == OptionToSeq(InsertOf(t[0])) + Inserts(t[1..]);
      assert Creates(t) == OptionToSeq(CreateOf(t[0])) + Creates(t[1..]);
      PersistNoWrites(table, t[1..]);
    }
  }

  /** A trace whose only write is one insert adds exactly those rows. */
  lemma {:induction false} PersistSingleInsert(table: seq<StoredImage>, t: seq<Effect>, rows: seq<ImageRow>)
    requires Inserts(t) == [rows] && Creates(t) == []
    ensures Persist(table, t) == table + Numbered(rows, |table| + 1)
    decreases |t|
  {
    assert Inserts(t) == OptionToSeq(InsertOf(t[0])) + Inserts(t[1..]);
    assert Creates(t) == OptionToSeq(CreateOf(t[0])) + Creates(t[1..]);
    if t[0].Insert? {
      assert [t[0].rows] + Inserts(t[1..]) == [rows];
      assert ([t[0].rows] + Inserts(t[1..]))[0] == t[0].rows;
      PersistNoWrites(table + Numbered(rows, |table| + 1), t[1..]);
    } else {
      assert RowsOf(t[0]) == [];
      assert table + Numbered([], |table| + 1) == table;
      PersistSingleInsert(table, t[1..], rows);
    }
  }
}
