/** The LevelDB tier (src/store/tier/ssd/ssd_tier.cpp). The database is a map from strings to byte
    strings whose operations are atomic and may fail. */
module SsdTier {
  import opened Status
  import opened Faults
  import opened Blocks
  import opened Buffers
  import opened MapSums
  import opened TierListing
  import opened BlockKeyText
  import opened BlockCodec

  type Database = map<string, Blob>

  function BlobSize(b: Blob): nat {
    |b|
  }

  /** DecodeRecord: a record is read back only if blob and metadata fit the key. */
  function DecodeRecord(key: BlockKey, value: Blob): Result<Block> {
    match ParseBlock(value)
    case Failure(_) => Failure(Corruption)
    case Success(block) => if Consistent(key, block.metadata) then Success(block) else Failure(Corruption)
  }

  /** Open accepts a database exactly when every record is one that Put could have written. */
  predicate ValidRecord(s: string, value: Blob) {
    FromString(s).Success? && DecodeRecord(FromString(s).value, value).Success?
  }

  ghost predicate Intact(db: Database) {
    forall s :: IntactAt(db, s)
  }

  ghost predicate IntactAt(db: Database, s: string) {
    s in db ==> ValidRecord(s, db[s])
  }

  /** The record of a stored key. */
  ghost predicate HasRecord(db: Database, contents: map<BlockKey, Block>, k: BlockKey) {
    k in contents ==>
      ToString(k) in db && db[ToString(k)] == Serialized(contents[k]) && Consistent(k, contents[k].metadata)
  }

  /** The key of a record. */
  ghost predicate HasKey(db: Database, contents: map<BlockKey, Block>, s: string) {
    s in db ==> FromString(s).Success? && FromString(s).value in contents
  }

  /** The database is `contents`, through both codecs. */
  ghost predicate Encodes(db: Database, contents: map<BlockKey, Block>) {
    && (forall k :: HasRecord(db, contents, k))
    && (forall s :: HasKey(db, contents, s))
  }

  /** A record is refused for its address, its blob, the model of its block or its token count, and for
      nothing else. */
  lemma RecordRefused(s: string, value: Blob)
    ensures !ValidRecord(s, value) <==>
            || FromString(s).Failure? || ParseBlock(value).Failure?
            || ParseBlock(value).value.metadata.modelFingerprint != FromString(s).value.modelFingerprint
            || (ParseBlock(value).value.metadata.numTokens != 0
                && ParseBlock(value).value.metadata.numTokens != FromString(s).value.prefixLen)
  {
  }

  /** So the scan of a database refuses it for one block with the wrong model or token count under its key. */
  lemma BadRecordRefused(db: Database, key: BlockKey, block: Block)
    requires ToString(key) in db && db[ToString(key)] == Serialized(block)
    ensures || block.metadata.modelFingerprint != key.modelFingerprint
            || (block.metadata.numTokens != 0 && block.metadata.numTokens != key.prefixLen)
            ==> !Intact(db)
    ensures block.metadata.modelFingerprint == key.modelFingerprint && block.metadata.numTokens in {0, key.prefixLen} ==>
            IntactAt(db, ToString(key))
  {
    FromStringToString(key);
    ParseSerialized(block);
    RecordRefused(ToString(key), Serialized(block));
    assert Intact(db) ==> IntactAt(db, ToString(key));
  }

  lemma EncodedRecord(db: Database, contents: map<BlockKey, Block>, key: BlockKey)
    requires Encodes(db, contents)
    ensures key in contents <==> ToString(key) in db
    ensures key in contents ==> DecodeRecord(key, db[ToString(key)]) == Success(contents[key])
  {
    FromStringToString(key);
    assert HasRecord(db, contents, key) && HasKey(db, contents, ToString(key));
    if key in contents {
      ParseSerialized(contents[key]);
    }
  }

  /** A database stands for one map only. */
  lemma EncodesUnique(db: Database, a: map<BlockKey, Block>, b: map<BlockKey, Block>)
    requires Encodes(db, a) && Encodes(db, b)
    ensures a == b
  {
    forall k
      ensures k in a <==> k in b
      ensures k in a ==> a[k] == b[k]
    {
      EncodedRecord(db, a, k);
      EncodedRecord(db, b, k);
    }
  }

  lemma SameAgain(db: Database, before: map<BlockKey, Block>, after: map<BlockKey, Block>)
    requires Encodes(db, after)
    ensures Encodes(db, before) ==> after == before
  {
    if Encodes(db, before) {
      EncodesUnique(db, before, after);
    }
  }

  /** And it is the only one for that map. */
  lemma EncodesDetermines(a: Database, b: Database, contents: map<BlockKey, Block>)
    requires Encodes(a, contents) && Encodes(b, contents)
    ensures a == b
  {
    forall s
      ensures s in a <==> s in b
      ensures s in a ==> a[s] == b[s]
    {
      EncodedAt(a, contents, s);
      EncodedAt(b, contents, s);
    }
  }

  lemma EncodedAt(db: Database, contents: map<BlockKey, Block>, s: string)
    requires Encodes(db, contents)
    ensures s in db <==> FromString(s).Success? && FromString(s).value in contents
    ensures s in db ==> db[s] == Serialized(contents[FromString(s).value])
  {
    assert HasKey(db, contents, s);
    if FromString(s).Success? {
      Canonical(s, FromString(s).value);
      assert HasRecord(db, contents, FromString(s).value);
    }
  }

  /** The map that a database stands for, if it stands for one. */
  ghost function Decoded(db: Database): map<BlockKey, Block> {
    if exists contents :: Encodes(db, contents) then
      var contents :| Encodes(db, contents);
      contents
    else map[]
  }

  lemma DecodedIs(db: Database, contents: map<BlockKey, Block>)
    requires Encodes(db, contents)
    ensures Decoded(db) == contents
  {
    EncodesUnique(db, contents, Decoded(db));
  }

  lemma EncodesNothing()
    ensures Encodes(map[], map[])
  {
  }

  /** What Put and Evict write, Open accepts. */
  lemma EncodesIntact(db: Database, contents: map<BlockKey, Block>)
    requires Encodes(db, contents)
    ensures Intact(db)
  {
    forall s | s in db
      ensures ValidRecord(s, db[s])
    {
      assert HasKey(db, contents, s);
      var key := FromString(s).value;
      Canonical(s, key);
      EncodedRecord(db, contents, key);
    }
  }

  lemma EncodesPut(db: Database, contents: map<BlockKey, Block>, key: BlockKey, block: Block)
    requires Encodes(db, contents) && Consistent(key, block.metadata)
    ensures Encodes(db[ToString(key) := Serialized(block)], contents[key := block])
  {
    var db', contents' := db[ToString(key) := Serialized(block)], contents[key := block];
    forall k
      ensures HasRecord(db', contents', k)
    {
      assert HasRecord(db, contents, k);
      if k != key && ToString(k) == ToString(key) {
        ToStringInjective(k, key);
      }
    }
    forall s
      ensures HasKey(db', contents', s)
    {
      assert HasKey(db, contents, s);
      FromStringToString(key);
    }
  }

  lemma EncodesErase(db: Database, contents: map<BlockKey, Block>, key: BlockKey)
    requires Encodes(db, contents)
    ensures Encodes(db - {ToString(key)}, contents - {key})
  {
    var db', contents' := db - {ToString(key)}, contents - {key};
    forall k
      ensures HasRecord(db', contents', k)
    {
      assert HasRecord(db, contents, k);
      if k != key && ToString(k) == ToString(key) {
        ToStringInjective(k, key);
      }
    }
    forall s
      ensures HasKey(db', contents', s)
    {
      assert HasKey(db, contents, s);
      Canonical(s, key);
    }
  }

  ghost function DiskBytes(db: Database): nat {
    Sum(db, BlobSize)
  }

  lemma DiskPut(db: Database, s: string, value: Blob)
    ensures |db[s := value]| == |db| + (if s in db then 0 else 1)
    ensures DiskBytes(db[s := value]) == DiskBytes(db) + |value| - (if s in db then |db[s]| else 0)
    ensures s in db ==> |db[s]| <= DiskBytes(db)
  {
    CountPut(db, s, value);
    SumPut(db, BlobSize, s, value);
    if s in db {
      SumRemove(db, BlobSize, s);
    }
  }

  /** The records that an iteration has left behind. */
  ghost function Visited(db: Database, todo: set<string>): Database {
    map s | s in db && s !in todo :: db[s]
  }

  /** Reading one more valid record of a scan. */
  lemma ScanStep(db: Database, todo: set<string>, decoded: map<BlockKey, Block>, s: string)
    requires s in todo && todo <= db.Keys && Encodes(Visited(db, todo), decoded) && ValidRecord(s, db[s])
    ensures var key := FromString(s).value;
            Encodes(Visited(db, todo - {s}), decoded[key := DecodeRecord(key, db[s]).value])
  {
    var seen, key := Visited(db, todo), FromString(s).value;
    var block := DecodeRecord(key, db[s]).value;
    Canonical(s, key);
    SerializeParsed(db[s]);
    EncodesPut(seen, decoded, key, block);
    assert seen[s := db[s]] == Visited(db, todo - {s});
  }

  lemma ScanCounts(db: Database, todo: set<string>, s: string)
    requires s in todo && todo <= db.Keys
    ensures |Visited(db, todo - {s})| == |Visited(db, todo)| + 1
    ensures DiskBytes(Visited(db, todo - {s})) == DiskBytes(Visited(db, todo)) + |db[s]|
    ensures DiskBytes(Visited(db, todo)) + |db[s]| <= DiskBytes(db)
  {
    var seen := Visited(db, todo);
    assert seen[s := db[s]] == Visited(db, todo - {s});
    DiskPut(seen, s, db[s]);
    SumSubmap(seen[s := db[s]], db, BlobSize);
  }

  function InfoOf(key: BlockKey, block: Block, handleOf: BlockKey -> nat): BlockInfo {
    BlockInfo(block.metadata, block.Size(), handleOf(key))
  }

  ghost function Infos(contents: map<BlockKey, Block>, handleOf: BlockKey -> nat): map<BlockKey, BlockInfo> {
    map k | k in contents :: InfoOf(k, contents[k], handleOf)
  }

  /** What a listing has named so far. */
  ghost function Listed(contents: map<BlockKey, Block>, todo: set<string>, handleOf: BlockKey -> nat)
    : map<BlockKey, BlockInfo>
  {
    map k | k in contents && ToString(k) !in todo :: InfoOf(k, contents[k], handleOf)
  }

  lemma OneAddress(s: string, key: BlockKey, k: BlockKey)
    requires s == ToString(key)
    ensures ToString(k) == s <==> k == key
  {
    Canonical(s, k);
    Canonical(s, key);
  }

  lemma ListedStep(contents: map<BlockKey, Block>, todo: set<string>, handleOf: BlockKey -> nat, key: BlockKey)
    requires key in contents && ToString(key) in todo
    ensures key !in Listed(contents, todo, handleOf)
    ensures Listed(contents, todo - {ToString(key)}, handleOf) ==
            Listed(contents, todo, handleOf)[key := InfoOf(key, contents[key], handleOf)]
  {
    var s := ToString(key);
    forall k | k in contents
      ensures ToString(k) !in todo - {s} <==> ToString(k) !in todo || k == key
    {
      OneAddress(s, key, k);
    }
  }

  lemma ListedAll(contents: map<BlockKey, Block>, handleOf: BlockKey -> nat)
    ensures Listed(contents, {}, handleOf) == Infos(contents, handleOf)
  {
  }

  class SsdTier {
    const env: Environment
    const handleOf: BlockKey -> nat  // the stable handle, a hash of the key
    var disk: Database
    var open: bool
    var numBlocks: nat
    var usedBytes: nat
    ghost var contents: map<BlockKey, Block>
    ghost var history: seq<Database>  // the database after each write

    /** An open tier holds `contents`, and its counters are what a full scan would find. */
    ghost predicate Valid()
      reads this
    {
      open ==> Encodes(disk, contents) && numBlocks == |disk| && usedBytes == DiskBytes(disk)
    }

    /** A tier over a database that may already hold records. */
    constructor (env: Environment, handleOf: BlockKey -> nat, disk: Database)
      ensures Valid() && !open && this.disk == disk && this.env == env && this.handleOf == handleOf
    {
      this.env, this.handleOf, this.disk := env, handleOf, disk;
      open, numBlocks, usedBytes, contents, history := false, 0, 0, map[], [];
    }

    /** The full scan of Open: it recounts the records and refuses any that Put could not have written. */
    method Scan() returns (status: StatusCode, blocks: nat, bytes: nat, ghost decoded: map<BlockKey, Block>)
      ensures status in {OK, Corruption}
      ensures status == OK <==> Intact(disk) && DiskBytes(disk) < TWO_64
      ensures status == OK ==> Encodes(disk, decoded) && blocks == |disk| && bytes == DiskBytes(disk)
    {
      blocks, bytes, decoded := 0, 0, map[];
      var todo := disk.Keys;
      assert Visited(disk, todo) == map[];
      while todo != {}
        invariant todo <= disk.Keys
        invariant Encodes(Visited(disk, todo), decoded)
        invariant blocks == |Visited(disk, todo)| && bytes == DiskBytes(Visited(disk, todo)) && bytes < TWO_64
        decreases |todo|
      {
        var s :| s in todo;
        var key := FromString(s);
        if key.Failure? {
          assert !IntactAt(disk, s);
          return Corruption, blocks, bytes, decoded;
        }
        var value := disk[s];
        var block := DecodeRecord(key.value, value);
        if block.Failure? {
          assert !IntactAt(disk, s);
          return Corruption, blocks, bytes, decoded;
        }
        ScanCounts(disk, todo, s);
        if bytes > TWO_64 - 1 - |value| {
          return Corruption, blocks, bytes, decoded;
        }
        ScanStep(disk, todo, decoded, s);
        blocks := blocks + 1;
        bytes := bytes + |value|;
        decoded := decoded[key.value := block.value];
        todo := todo - {s};
      }
      assert Visited(disk, {}) == disk;
      EncodesIntact(disk, decoded);
      return OK, blocks, bytes, decoded;
    }

    method Open() returns (status: StatusCode)
      requires Valid()
      modifies this, env
      ensures Valid() && disk == old(disk) && history == old(history)
      ensures old(env.injected) <= env.injected
      ensures status == OK ==> open && Encodes(disk, contents)
      ensures status != OK ==> open == old(open) && contents == old(contents)
      ensures old(Encodes(disk, contents)) ==> contents == old(contents)
      ensures env.injected == old(env.injected) ==>
        (status == OK <==> old(open) || (Intact(disk) && DiskBytes(disk) < TWO_64))
      ensures status == Corruption ==> !(Intact(disk) && DiskBytes(disk) < TWO_64)
      ensures env.injected == old(env.injected) && status != OK ==> status == Corruption
    {
      if open {
        return OK;
      }
      var failed := env.Fails();
      if failed {
        return IoError;
      }
      var scanned, blocks, bytes, decoded := Scan();
      if scanned != OK {
        return scanned;
      }
      failed := env.Fails();
      if failed {
        return IoError;
      }
      failed := env.Fails();
      if failed {
        return OutOfCapacity;
      }
      SameAgain(disk, contents, decoded);
      open := true;
      contents := decoded;
      numBlocks, usedBytes := blocks, bytes;
      return OK;
    }

    method Close() returns (status: StatusCode)
      requires Valid()
      modifies this
      ensures Valid() && !open && status == OK
      ensures disk == old(disk) && contents == old(contents) && history == old(history)
    {
      open := false;
      return OK;
    }

    method Probe(key: BlockKey) returns (r: Result<BlockInfo>)
      requires Valid()
      modifies env
      ensures old(env.injected) <= env.injected
      ensures !open ==> r == Failure(Unavailable)
      ensures open && env.injected == old(env.injected) ==>
        r == if key in contents then Success(InfoOf(key, contents[key], handleOf)) else Failure(NotFound)
      ensures r.Success? ==> key in contents && r.value == InfoOf(key, contents[key], handleOf)
    {
      if !open {
        return Failure(Unavailable);
      }
      var failed := env.Fails();
      if failed {
        return Failure(OutOfCapacity);
      }
      EncodedRecord(disk, contents, key);
      if ToString(key) !in disk {
        return Failure(NotFound);
      }
      failed := env.Fails();
      if failed {
        return Failure(IoError);
      }
      var block := DecodeRecord(key, disk[ToString(key)]);
      return Success(InfoOf(key, block.value, handleOf));
    }

    method Put(key: BlockKey, block: Block) returns (status: StatusCode, handle: nat)
      requires Valid()
      modifies this, env
      ensures Valid() && open == old(open)
      ensures old(env.injected) <= env.injected
      ensures status == OK ==> contents == old(contents)[key := block] && handle == handleOf(key)
      ensures status != OK ==> contents == old(contents) && disk == old(disk)
      ensures history == if status == OK then old(history) + [disk] else old(history)
      ensures !open ==> status == Unavailable
      ensures open && !Consistent(key, block.metadata) ==> status == InvalidArgument
      ensures open && Consistent(key, block.metadata) ==>
        status == OK || (status in {OutOfCapacity, IoError} && old(env.injected) < env.injected)
      ensures open ==>
        (status == InvalidArgument <==>
           || block.metadata.modelFingerprint != key.modelFingerprint
           || (block.metadata.numTokens != 0 && block.metadata.numTokens != key.prefixLen))
    {
      handle := 0;
      if !open {
        return Unavailable, handle;
      }
      if !Consistent(key, block.metadata) {
        return InvalidArgument, handle;
      }
      var failed := env.Fails();
      if failed {
        return OutOfCapacity, handle;
      }
      var blob := SerializeBlock(block);
      var k := ToString(key);
      failed := env.Fails();
      if failed {
        return IoError, handle;
      }
      var existing := if k in disk then Some(|disk[k]|) else None;
      failed := env.Fails();
      if failed {
        return IoError, handle;
      }
      StoreRecord(key, block, k, blob, existing);
      return OK, handleOf(key);
    }

    /** The write itself and the counters, which take the old record's size from the earlier read. */
    method StoreRecord(key: BlockKey, block: Block, k: string, blob: Blob, existing: Option<nat>)
      requires Valid() && open && Consistent(key, block.metadata)
      requires k == ToString(key) && blob == Serialized(block)
      requires existing == if k in disk then Some(|disk[k]|) else None
      modifies this
      ensures Valid() && open
      ensures contents == old(contents)[key := block] && disk == old(disk)[k := blob]
      ensures history == old(history) + [disk]
    {
      EncodesPut(disk, contents, key, block);
      DiskPut(disk, k, blob);
      disk := disk[k := blob];
      history := history + [disk];
      contents := contents[key := block];
      if existing.Some? {
        usedBytes := usedBytes - existing.value;
      } else {
        numBlocks := numBlocks + 1;
      }
      usedBytes := usedBytes + |blob|;
    }

    method Get(key: BlockKey, dst: MutableBuffer) returns (status: StatusCode, view: BlockView)
      requires Valid()
      modifies env
      ensures old(env.injected) <= env.injected
      ensures status == OK ==> open && key in contents && ReadStatus(dst, contents[key]) == OK
      ensures view == if status == OK then ViewOf(contents[key]) else EMPTY_VIEW
      ensures env.injected == old(env.injected) ==>
        status == (if dst.Dangling() then InvalidArgument
                   else if !open then Unavailable
                   else if key !in contents then NotFound
                   else ReadStatus(dst, contents[key]))
      ensures status == OK ==> view.data == contents[key].data && |view.data| <= dst.capacity
      ensures env.injected == old(env.injected) && open && key in contents ==>
        && (status == InvalidArgument <==> dst.isNull && dst.capacity != 0)
        && (status == OutOfCapacity <==> (dst.capacity == 0 || !dst.isNull) && dst.capacity < |contents[key].data|)
        && status in {OK, InvalidArgument, OutOfCapacity}
    {
      if dst.isNull && dst.capacity != 0 {
        return InvalidArgument, EMPTY_VIEW;
      }
      if !open {
        return Unavailable, EMPTY_VIEW;
      }
      var failed := env.Fails();
      if failed {
        return OutOfCapacity, EMPTY_VIEW;
      }
      EncodedRecord(disk, contents, key);
      if ToString(key) !in disk {
        return NotFound, EMPTY_VIEW;
      }
      failed := env.Fails();
      if failed {
        return IoError, EMPTY_VIEW;
      }
      var block := DecodeRecord(key, disk[ToString(key)]).value;
      if block.Size() > dst.capacity {
        return OutOfCapacity, EMPTY_VIEW;
      }
      return OK, BlockView(block.data, block.metadata);
    }

    method Evict(key: BlockKey) returns (status: StatusCode)
      requires Valid()
      modifies this, env
      ensures Valid() && open == old(open)
      ensures old(env.injected) <= env.injected
      ensures status == OK ==> key in old(contents) && contents == old(contents) - {key}
      ensures status != OK ==> contents == old(contents) && disk == old(disk)
      ensures history == if status == OK then old(history) + [disk] else old(history)
      ensures env.injected == old(env.injected) ==>
        status == if !open then Unavailable else if key in old(contents) then OK else NotFound
    {
      if !open {
        return Unavailable;
      }
      var failed := env.Fails();
      if failed {
        return IoError;
      }
      EncodedRecord(disk, contents, key);
      var k := ToString(key);
      if k !in disk {
        return NotFound;
      }
      failed := env.Fails();
      if failed {
        return IoError;
      }
      EraseRecord(key, k);
      return OK;
    }

    method EraseRecord(key: BlockKey, k: string)
      requires Valid() && open && k == ToString(key) && k in disk
      modifies this
      ensures Valid() && open
      ensures contents == old(contents) - {key} && disk == old(disk) - {k}
      ensures history == old(history) + [disk]
    {
      EncodesErase(disk, contents, key);
      SumRemove(disk, BlobSize, k);
      CountRemove(disk, k);
      if numBlocks > 0 {
        numBlocks := numBlocks - 1;
      }
      usedBytes := usedBytes - |disk[k]|;
      disk := disk - {k};
      history := history + [disk];
      contents := contents - {key};
    }

    method VisitEntries() returns (status: StatusCode, entries: seq<(BlockKey, BlockInfo)>)
      requires Valid()
      modifies env
      ensures old(env.injected) <= env.injected
      ensures status == OK ==> open && Lists(entries, Infos(contents, handleOf))
      ensures env.injected == old(env.injected) ==> status == if open then OK else Unavailable
    {
      entries := [];
      if !open {
        return Unavailable, entries;
      }
      EncodesIntact(disk, contents);
      var todo := disk.Keys;
      assert Listed(contents, todo, handleOf) == map[] by {
        forall k | k in contents {
          EncodedRecord(disk, contents, k);
        }
      }
      while todo != {}
        invariant todo <= disk.Keys && old(env.injected) == env.injected
        invariant Lists(entries, Listed(contents, todo, handleOf))
        decreases |todo|
      {
        var s :| s in todo;
        assert IntactAt(disk, s);
        var key := FromString(s).value;
        var block := DecodeRecord(key, disk[s]).value;
        Canonical(s, key);
        EncodedRecord(disk, contents, key);
        ListedStep(contents, todo, handleOf, key);
        ListsMore(entries, Listed(contents, todo, handleOf), key, InfoOf(key, block, handleOf));
        entries := entries + [(key, InfoOf(key, block, handleOf))];
        todo := todo - {s};
      }
      ListedAll(contents, handleOf);
      var failed := env.Fails();
      if failed {
        return IoError, entries;
      }
      failed := env.Fails();
      if failed {
        return OutOfCapacity, entries;
      }
      return OK, entries;
    }
  }
}
