/** The config store: a TLV log of additions and deletions, compacted now and then into the whole
    database, and replayed on start. */
module PersistentStores {
  import opened Options

  newtype byte = x: int | 0 <= x < 256

  type Bytes = seq<byte>

  const WORD: int := 0x1_0000_0000

  /** ActionType::ADD and ActionType::DEL; any other value is ignored on replay. */
  const ADD: byte := 1
  const DEL: byte := 2

  /** "TlvFormatMarker" */
  const MARKER: Bytes := [84, 108, 118, 70, 111, 114, 109, 97, 116, 77, 97, 114, 107, 101, 114]

  const DB_FLUSH_RATIO: nat := 10000

  datatype Obj = Obj(kind: byte, key: Bytes, data: Option<Bytes>)

  /** writeBE<uint32_t> after the cast of a length. */
  function BE32(n: nat): (b: Bytes)
    ensures |b| == 4
  {
    var low := n % WORD;
    var mid := low / 256;
    var high := mid / 256;
    [(high / 256) as byte, (high % 256) as byte, (mid % 256) as byte, (low % 256) as byte]
  }

  /** readBE<uint32_t>. */
  function FromBE32(b: Bytes): nat
    requires |b| >= 4
  {
    b[0] as int * 0x100_0000 + b[1] as int * 0x1_0000 + b[2] as int * 0x100 + b[3] as int
  }

  lemma WordRoundTrip(n: nat, rest: Bytes)
    ensures FromBE32(BE32(n) + rest) == n % WORD
  {
  }

  function Field(b: Bytes): Bytes {
    BE32(|b|) + b
  }

  /** encodePersistentObject. */
  function Encode(o: Obj): Bytes {
    [o.kind] + Field(o.key) + Field(DataOf(o))
  }

  datatype Read<T> = Got(value: T, rest: Bytes) | OutOfRange

  /** A length and as many bytes. */
  function ReadField(b: Bytes): Read<Bytes> {
    if |b| < 4 then OutOfRange
    else
      var n := FromBE32(b);
      if |b| - 4 < n then OutOfRange else Got(b[4..4 + n], b[4 + n..])
  }

  /** decodePersistentObject on a buffer that is not empty. */
  function Decode(b: Bytes): Read<Obj>
    requires b != []
  {
    match ReadField(b[1..])
    case OutOfRange => OutOfRange
    case Got(key, more) =>
      match ReadField(more)
      case OutOfRange => OutOfRange
      case Got(data, rest) => Got(Obj(b[0], key, if data == [] then None else Some(data)), rest)
  }

  /** Empty data reads back as none. */
  function Normal(o: Obj): Obj {
    if o.data == Some([]) then o.(data := None) else o
  }

  /** The lengths fit the 32 bits they are written in. */
  predicate Fits(o: Obj) {
    |o.key| < WORD && (o.data.Some? ==> |o.data.value| < WORD)
  }

  lemma FieldReads(f: Bytes, rest: Bytes)
    ensures ReadField(Field(f) + rest) == Got(f[..|f| % WORD], f[|f| % WORD..] + rest)
  {
    var b, n := Field(f) + rest, |f| % WORD;
    assert b == BE32(|f|) + (f + rest);
    WordRoundTrip(|f|, f + rest);
    assert n <= |f|;
    assert b[4..] == f + rest;
    assert b[4..4 + n] == (f + rest)[..n] == f[..n];
    assert b[4 + n..] == (f + rest)[n..] == f[n..] + rest;
  }

  function DataOf(o: Obj): Bytes {
    if o.data.Some? then o.data.value else []
  }

  lemma EncodingSplits(o: Obj, rest: Bytes)
    ensures var b := Encode(o) + rest; b != [] && b[0] == o.kind && b[1..] == Field(o.key) + (Field(DataOf(o)) + rest)
  {
  }

  /** What comes back: the fields cut to their lengths modulo 2^32. */
  lemma DecodeShortKey(o: Obj, rest: Bytes)
    requires |o.key| < WORD
    ensures var data, n := DataOf(o), |DataOf(o)| % WORD;
            Decode(Encode(o) + rest) == Got(Obj(o.kind, o.key, if n == 0 then None else Some(data[..n])), data[n..] + rest)
  {
    hide Field, ReadField, Encode;
    var data := DataOf(o);
    EncodingSplits(o, rest);
    FieldReads(o.key, Field(data) + rest);
    assert o.key[..|o.key|] == o.key && o.key[|o.key|..] + (Field(data) + rest) == Field(data) + rest;
    FieldReads(data, rest);
  }

  lemma DecodeLongKey(o: Obj, rest: Bytes)
    requires |o.key| >= WORD
    ensures Decode(Encode(o) + rest).Got? ==> |Decode(Encode(o) + rest).value.key| < |o.key|
  {
  }

  /** Decoding inverts encoding, whatever follows, if and only if the lengths fit. */
  lemma DecodeInvertsEncodeIff(o: Obj, rest: Bytes)
    ensures Decode(Encode(o) + rest) == Got(Normal(o), rest) <==> Fits(o)
  {
    hide Decode, Encode;
    EncodingSplits(o, rest);
    if |o.key| < WORD {
      DecodeShortKey(o, rest);
      var data := DataOf(o);
      if |data| < WORD {
        assert data[..|data|] == data && data[|data|..] + rest == rest;
      } else {
        assert |data[..|data| % WORD]| < |data|;
      }
    } else {
      DecodeLongKey(o, rest);
    }
  }

  type Database = map<Bytes, Bytes>

  /** What one object does to the database. */
  function Replayed(db: Database, o: Obj): Database {
    if o.kind == ADD then db[o.key := DataOf(o)]
    else if o.kind == DEL then db - {o.key}
    else db
  }

  function Replay(db: Database, log: seq<Obj>): Database
    decreases |log|
  {
    if log == [] then db else Replay(Replayed(db, log[0]), log[1..])
  }

  function EncodeAll(log: seq<Obj>): Bytes {
    if log == [] then [] else Encode(log[0]) + EncodeAll(log[1..])
  }

  /** The loop of loadDatabaseTlvFormat. */
  function Parse(b: Bytes, db: Database): Option<Database>
    decreases |b|
  {
    if b == [] then Some(db)
    else
      match Decode(b)
      case OutOfRange => None
      case Got(o, rest) => DecodeShrinks(b); Parse(rest, Replayed(db, o))
  }

  lemma DecodeShrinks(b: Bytes)
    requires b != []
    ensures Decode(b).Got? ==> |Decode(b).rest| < |b|
  {
  }

  /** loadDatabaseTlvFormat; the marker's length is skipped, its text not compared. */
  function Load(file: Bytes): Option<Database> {
    if |file| < |MARKER| then None else Parse(file[|MARKER|..], map[])
  }

  /** The format on disk: the marker spelled out, and an object of each kind. */
  lemma FormatIs()
    ensures |MARKER| == 15 && forall i | 0 <= i < 15 :: MARKER[i] as int == "TlvFormatMarker"[i] as int
    ensures Encode(Obj(ADD, [107], Some([118, 119]))) == [1, 0, 0, 0, 1, 107, 0, 0, 0, 2, 118, 119]
    ensures Encode(Obj(DEL, [107], None)) == [2, 0, 0, 0, 1, 107, 0, 0, 0, 0]
  {
    assert BE32(0) == [0, 0, 0, 0] && BE32(1) == [0, 0, 0, 1] && BE32(2) == [0, 0, 0, 2];
  }

  /** A file that is too short for the marker is no log. */
  lemma ShortFileFails(file: Bytes)
    ensures |file| < 15 ==> Load(file).None?
    ensures |file| == 15 ==> Load(file) == Some(map[])
  {
  }

  ghost predicate AllFit(log: seq<Obj>) {
    forall o <- log :: Fits(o)
  }

  lemma {:induction false} ParseReplays(log: seq<Obj>, db: Database)
    requires AllFit(log)
    ensures Parse(EncodeAll(log), db) == Some(Replay(db, log))
    decreases |log|
  {
    if log != [] {
      var o, rest := log[0], EncodeAll(log[1..]);
      DecodeInvertsEncodeIff(o, rest);
      assert Replayed(db, Normal(o)) == Replayed(db, o);
      hide Decode, Encode;
      ParseReplays(log[1..], Replayed(db, o));
    }
  }

  lemma {:induction false} ReplayAppend(db: Database, log: seq<Obj>, more: seq<Obj>)
    ensures Replay(db, log + more) == Replay(Replay(db, log), more)
    decreases |log|
  {
    if log == [] {
      assert log + more == more;
    } else {
      assert (log + more)[1..] == log[1..] + more;
      ReplayAppend(Replayed(db, log[0]), log[1..], more);
    }
  }

  lemma {:induction false} EncodeAppend(log: seq<Obj>, more: seq<Obj>)
    ensures EncodeAll(log + more) == EncodeAll(log) + EncodeAll(more)
    decreases |log|
  {
    if log == [] {
      assert log + more == more;
    } else {
      assert (log + more)[1..] == log[1..] + more;
      EncodeAppend(log[1..], more);
    }
  }

  /** The file is the marker and a log. */
  ghost predicate Holds(file: Bytes, log: seq<Obj>) {
    AllFit(log) && file == MARKER + EncodeAll(log)
  }

  lemma HeldIsLoaded(file: Bytes, log: seq<Obj>)
    requires Holds(file, log)
    ensures Load(file) == Some(Replay(map[], log))
  {
    assert file[|MARKER|..] == EncodeAll(log);
    ParseReplays(log, map[]);
  }

  /** What the last object for `k` leaves of it, if there is one. */
  function LastWord(log: seq<Obj>, k: Bytes): Option<Option<Bytes>> {
    if log == [] then None
    else
      var o := log[|log| - 1];
      if o.key == k && o.kind == ADD then Some(Some(DataOf(o)))
      else if o.key == k && o.kind == DEL then Some(None)
      else LastWord(log[..|log| - 1], k)
  }

  /** A replay keeps what the log does not speak of, and takes the last word on the rest. */
  lemma {:induction false} ReplayAt(db: Database, log: seq<Obj>, k: Bytes)
    ensures Lookup(Replay(db, log), k) == if LastWord(log, k).Some? then LastWord(log, k).value else Lookup(db, k)
    decreases |log|
  {
    if log != [] {
      var n := |log| - 1;
      assert log == log[..n] + [log[n]];
      ReplayAppend(db, log[..n], [log[n]]);
      assert Replay(Replay(db, log[..n]), [log[n]]) == Replayed(Replay(db, log[..n]), log[n]);
      ReplayAt(db, log[..n], k);
    }
  }

  /** The database already holds what the log says last. */
  ghost predicate Settled(db: Database, log: seq<Obj>) {
    forall k :: LastWord(log, k).Some? ==> Lookup(db, k) == LastWord(log, k).value
  }

  lemma SettledReplays(db: Database, log: seq<Obj>)
    requires Settled(db, log)
    ensures Replay(db, log) == db
  {
    var r := Replay(db, log);
    forall k ensures Lookup(r, k) == Lookup(db, k) {
      ReplayAt(db, log, k);
    }
    SameLookupsSame(r, db);
  }

  lemma QueueKeepsSettled(db: Database, log: seq<Obj>, o: Obj)
    requires Settled(db, log)
    ensures Settled(Replayed(db, o), log + [o])
  {
  }

  /** Encoding the queued objects one after another. */
  method EncodeObjects(objs: seq<Obj>) returns (b: Bytes)
    ensures b == EncodeAll(objs)
  {
    b := [];
    for i := 0 to |objs|
      invariant b == EncodeAll(objs[..i])
    {
      assert objs[..i + 1] == objs[..i] + [objs[i]];
      EncodeAppend(objs[..i], [objs[i]]);
      assert EncodeAll([objs[i]]) == Encode(objs[i]);
      b := b + Encode(objs[i]);
    }
    assert objs[..|objs|] == objs;
  }

  predicate DatabaseFits(db: Database) {
    forall k <- db :: |k| < WORD && |db[k]| < WORD
  }

  lemma OneMoreObject(log: seq<Obj>, o: Obj, db: Database)
    requires Replay(map[], log) == db
    ensures EncodeAll(log + [o]) == EncodeAll(log) + Encode(o) && Replay(map[], log + [o]) == Replayed(db, o)
  {
    EncodeAppend(log, [o]);
    ReplayAppend(map[], log, [o]);
    assert EncodeAll([o]) == Encode(o) && Replay(db, [o]) == Replayed(db, o);
  }

  /** What is read fits the lengths it was read by. */
  lemma DecodedFits(b: Bytes)
    requires b != []
    ensures Decode(b).Got? ==> Fits(Decode(b).value)
  {
  }

  lemma {:induction false} ParsedFits(b: Bytes, db: Database)
    requires DatabaseFits(db)
    ensures Parse(b, db).Some? ==> DatabaseFits(Parse(b, db).value)
    decreases |b|
  {
    if b != [] && Decode(b).Got? {
      DecodeShrinks(b);
      DecodedFits(b);
      hide Decode;
      ParsedFits(Decode(b).rest, Replayed(db, Decode(b).value));
    }
  }

  /** So does whatever a file loads to. */
  lemma LoadFits(file: Bytes)
    ensures Load(file).Some? ==> DatabaseFits(Load(file).value)
  {
    if |file| >= |MARKER| {
      ParsedFits(file[|MARKER|..], map[]);
    }
  }

  /** `b` is the database as a log, readable if all entries fit their length fields. */
  ghost predicate IsLogOf(b: Bytes, db: Database) {
    exists log :: (DatabaseFits(db) ==> AllFit(log)) && b == EncodeAll(log) && Replay(map[], log) == db
  }

  /** Encoding the whole database: a log of additions that replays to it. */
  method EncodeDatabase(db: Database) returns (b: Bytes)
    ensures IsLogOf(b, db)
  {
    b := [];
    ghost var log: seq<Obj> := [];
    var todo := db.Keys;
    ghost var done: Database := map[];
    NothingReplays();
    hide EncodeAll, Replay, Encode;
    while todo != {}
      invariant todo <= db.Keys && done == db - todo
      invariant (DatabaseFits(db) ==> AllFit(log)) && b == EncodeAll(log) && Replay(map[], log) == done
      decreases todo
    {
      var k :| k in todo;
      var o := Obj(ADD, k, Some(db[k]));
      OneMoreObject(log, o, done);
      b, log := b + Encode(o), log + [o];
      todo := todo - {k};
      done := done[k := db[k]];
      assert done == db - todo;
    }
    assert db - {} == db;
  }

  function Contents(file: Option<Bytes>): Bytes {
    if file.Some? then file.value else []
  }

  /** Memory and disk agree: replaying the file and then the unflushed objects gives the database. */
  ghost predicate InStep(database: Database, unflushed: seq<Obj>, markerWritten: bool, file: Option<Bytes>, log: seq<Obj>) {
    && (markerWritten <==> file.Some?)
    && (if file.Some? then Holds(file.value, log) else log == [])
    && Replay(map[], log + unflushed) == database
  }

  lemma FlushKeepsStep(database: Database, unflushed: seq<Obj>, markerWritten: bool, file: Option<Bytes>, log: seq<Obj>)
    requires InStep(database, unflushed, markerWritten, file, log) && AllFit(unflushed)
    ensures var file' := Contents(file) + ((if markerWritten then [] else MARKER) + EncodeAll(unflushed));
            InStep(database, [], true, Some(file'), log + unflushed) && Load(file') == Some(database)
  {
    var file' := Contents(file) + ((if markerWritten then [] else MARKER) + EncodeAll(unflushed));
    AppendHolds(file, markerWritten, log, unflushed);
    HeldIsLoaded(file', log + unflushed);
    hide EncodeAll, Replay, Holds, Load;
    assert log + unflushed + [] == log + unflushed;
  }

  lemma AppendHolds(file: Option<Bytes>, markerWritten: bool, log: seq<Obj>, unflushed: seq<Obj>)
    requires (markerWritten <==> file.Some?) && (if file.Some? then Holds(file.value, log) else log == []) && AllFit(unflushed)
    ensures Holds(Contents(file) + ((if markerWritten then [] else MARKER) + EncodeAll(unflushed)), log + unflushed)
  {
    EncodeAppend(log, unflushed);
    hide EncodeAll;
    if file.None? {
      assert log + unflushed == unflushed;
      assert [] + (MARKER + EncodeAll(unflushed)) == MARKER + EncodeAll(unflushed);
    } else {
      assert file.value + ([] + EncodeAll(unflushed)) == MARKER + (EncodeAll(log) + EncodeAll(unflushed));
    }
  }

  lemma SaveKeepsStep(database: Database, unflushed: seq<Obj>, objs: seq<Obj>)
    requires AllFit(objs) && Replay(map[], objs) == database && Settled(database, unflushed)
    ensures InStep(database, unflushed, true, Some(MARKER + EncodeAll(objs)), objs)
    ensures Load(MARKER + EncodeAll(objs)) == Some(database)
  {
    ReplayAppend(map[], objs, unflushed);
    SettledReplays(database, unflushed);
    HeldIsLoaded(MARKER + EncodeAll(objs), objs);
  }

  lemma QueueKeepsStep(database: Database, unflushed: seq<Obj>, markerWritten: bool, file: Option<Bytes>, log: seq<Obj>, o: Obj)
    requires InStep(database, unflushed, markerWritten, file, log)
    ensures InStep(Replayed(database, o), unflushed + [o], markerWritten, file, log)
  {
    assert log + (unflushed + [o]) == (log + unflushed) + [o];
    ReplayAppend(map[], log + unflushed, [o]);
    assert Replay(database, [o]) == Replayed(database, o);
  }

  class PersistentStore {
    /** database_, pObjects_, tlvMarkerWritten_, numOfNewWritesToDisk_ */
    var database: Database
    var unflushed: seq<Obj>
    var markerWritten: bool
    var newWrites: nat

    /** The file, if it exists. */
    var file: Option<Bytes>

    /** The objects in the file; whether it can be read: no append has failed and nothing that does
        not fit its length field has been written since the last full save. */
    ghost var log: seq<Obj>
    ghost var intact: bool

    ghost predicate Valid()
      reads this
    {
      && Settled(database, unflushed)
      && (intact ==> InStep(database, unflushed, markerWritten, file, log))
    }

    /** Start on what a store left behind: `written` is the log it wrote, if the file is one. */
    constructor (disk: Option<Bytes>, ghost written: seq<Obj>)
      ensures Valid() && file == disk && unflushed == [] && DatabaseFits(database)
      ensures database == if disk.Some? && Load(disk.value).Some? then Load(disk.value).value else map[]
      ensures intact <==> disk.None? || Holds(disk.value, written)
      ensures (markerWritten <==> disk.Some? && Load(disk.value).Some?) && newWrites == 0
    {
      file, unflushed, newWrites := disk, [], 0;
      database, markerWritten := map[], false;
      if disk.Some? {
        var loaded := Load(disk.value);
        if loaded.Some? {
          database, markerWritten := loaded.value, true;
        }
      }
      log := if disk.None? then [] else written;
      intact := disk.None? || Holds(disk.value, written);
      new;
      if disk.Some? {
        LoadFits(disk.value);
      }
      if disk.Some? && Holds(disk.value, written) {
        HeldIsLoaded(disk.value, written);
        assert written + [] == written;
      }
    }

    method Store(key: Bytes, value: Bytes)
      requires Valid()
      modifies this`database, this`unflushed
      ensures Valid() && database == old(database)[key := value]
      ensures unflushed == old(unflushed) + [Obj(ADD, key, Some(value))]
    {
      hide Settled, InStep;
      ghost var o := Obj(ADD, key, Some(value));
      QueueKeepsSettled(database, unflushed, o);
      if intact {
        QueueKeepsStep(database, unflushed, markerWritten, file, log, o);
      }
      database := database[key := value];
      unflushed := unflushed + [Obj(ADD, key, Some(value))];
    }

    method Erase(key: Bytes) returns (found: bool)
      requires Valid()
      modifies this`database, this`unflushed
      ensures Valid() && found == (key in old(database)) && database == old(database) - {key}
      ensures unflushed == if found then old(unflushed) + [Obj(DEL, key, None)] else old(unflushed)
    {
      hide Settled, InStep;
      found := key in database;
      if found {
        ghost var o := Obj(DEL, key, None);
        QueueKeepsSettled(database, unflushed, o);
        if intact {
          QueueKeepsStep(database, unflushed, markerWritten, file, log, o);
        }
        database := database - {key};
        unflushed := unflushed + [Obj(DEL, key, None)];
      } else {
        assert database - {key} == database;
      }
    }

    /** saveDatabaseToDisk: atomic, so a failure leaves the file as it was. A success repairs what
        failed appends have left. */
    method SaveDatabase(ok: bool) returns (saved: bool)
      requires Valid()
      modifies this`file, this`markerWritten, this`log, this`intact
      ensures Valid() && saved == ok
      ensures ok ==> file.Some? && intact == DatabaseFits(database)
      ensures ok && DatabaseFits(database) ==> Load(file.value) == Some(database)
      ensures !ok ==> file == old(file) && intact == old(intact) && log == old(log)
    {
      hide Settled, InStep, EncodeAll, Load;
      var b := EncodeDatabase(database);
      ghost var objs :| (DatabaseFits(database) ==> AllFit(objs)) && b == EncodeAll(objs) && Replay(map[], objs) == database;
      if DatabaseFits(database) {
        SaveKeepsStep(database, unflushed, objs);
      }
      if ok {
        file, markerWritten := Some(MARKER + b), true;
        log, intact := objs, DatabaseFits(database);
      }
      return ok;
    }

    /** savePersistentObjectToDisk. The queue is emptied whether or not the append succeeds; a failed
        append may leave any part of it, `partial`, in the file. Every 10000 appends the whole
        database is written. */
    method Flush(ok: bool, saveOk: bool, partial: Bytes) returns (flushed: bool)
      requires Valid()
      modifies this
      ensures Valid() && unflushed == [] && database == old(database)
      ensures intact && ok ==> file.Some? && Load(file.value) == Some(database)
      ensures ok && old(intact) && old(AllFit(unflushed)) && DatabaseFits(database) ==> intact
      ensures newWrites == if !ok then old(newWrites) else if old(newWrites) + 1 >= 10000 then 0 else old(newWrites) + 1
      ensures flushed <==> ok && (old(newWrites) + 1 >= DB_FLUSH_RATIO ==> saveOk)
      ensures flushed && old(newWrites) + 1 >= DB_FLUSH_RATIO && DatabaseFits(database) ==> intact
    {
      hide InStep, EncodeAll, Load;
      var objs := unflushed;
      var b := EncodeObjects(objs);
      var data := (if markerWritten then [] else MARKER) + b;
      if intact && AllFit(unflushed) {
        FlushKeepsStep(database, unflushed, markerWritten, file, log);
      }
      unflushed, markerWritten := [], true;
      if !ok {
        intact := false;
        file := if partial == [] then file else Some(Contents(file) + partial);
        return false;
      }
      file := Some(Contents(file) + data);
      log, intact := log + objs, intact && AllFit(objs);
      newWrites := newWrites + 1;
      flushed := true;
      if newWrites >= DB_FLUSH_RATIO {
        newWrites := 0;
        flushed := SaveDatabase(saveOk);
      }
    }
  }

  /** Closing a store in good order, whose destructor saves the whole database, and starting a new
      one on the file gives the same database back, even after failed appends. */
  method Reopen(s: PersistentStore) returns (t: PersistentStore)
    requires s.Valid()
    modifies s
    ensures fresh(t) && t.Valid()
    ensures old(DatabaseFits(s.database)) ==> t.intact && t.database == old(s.database)
  {
    hide Settled, Load;
    var ok := s.SaveDatabase(true);
    t := new PersistentStore(s.file, s.log);
  }

  /** After a crash the database is what it was at the last flush: the unflushed objects are gone and
      nothing else. */
  method Recover(s: PersistentStore) returns (t: PersistentStore)
    requires s.Valid() && s.intact
    ensures fresh(t) && t.Valid() && t.intact && Replay(t.database, s.unflushed) == s.database
  {
    hide Settled, Replay, EncodeAll;
    ReplayAppend(map[], s.log, s.unflushed);
    if s.file.Some? {
      HeldIsLoaded(s.file.value, s.log);
    } else {
      NothingReplays();
    }
    t := new PersistentStore(s.file, s.log);
  }

  lemma NothingReplays()
    ensures Replay(map[], []) == map[] && EncodeAll([]) == []
  {
  }
}
