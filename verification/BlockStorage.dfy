/** Block headers and JSON data: an append-only commit log with indexes into it. To its readers
    it is a map from hash to header and newest JSON data. */
module BlockStorage {
  import opened Numbers
  import opened Blocks

  type ContextHash = Bytes32
  type JsonData = seq<byte>

  datatype Column = BlockHeaderColumn(header: Header) | BlockJsonColumn(json: JsonData)

  /** Positions in the commit log. */
  datatype ColumnsLocation = ColumnsLocation(blockHeader: nat, blockJsonData: Option<nat>)

  datatype Stored = Stored(header: Header, json: Option<JsonData>)

  /** The location can be followed: both positions exist and hold the right kind of column. */
  ghost predicate Follows(clog: seq<Column>, l: ColumnsLocation) {
    && l.blockHeader < |clog| && clog[l.blockHeader].BlockHeaderColumn?
    && (l.blockJsonData.Some? ==>
          l.blockJsonData.value < |clog| && clog[l.blockJsonData.value].BlockJsonColumn?)
  }

  ghost function StoredAt(clog: seq<Column>, l: ColumnsLocation): Stored
    requires Follows(clog, l)
  {
    Stored(clog[l.blockHeader].header,
           if l.blockJsonData.Some? then Some(clog[l.blockJsonData.value].json) else None)
  }

  ghost predicate AllFollow<K>(clog: seq<Column>, index: map<K, ColumnsLocation>) {
    forall k {:trigger index[k]} :: k in index ==> Follows(clog, index[k])
  }

  /** The map an index stands for. */
  ghost function Resolve<K>(clog: seq<Column>, index: map<K, ColumnsLocation>): (m: map<K, Stored>)
    requires AllFollow(clog, index)
    ensures m.Keys == index.Keys
  {
    map k | k in index :: StoredAt(clog, index[k])
  }

  /** The log only grows, so locations keep their meaning. */
  lemma AppendKeeps<K>(clog: seq<Column>, column: Column, index: map<K, ColumnsLocation>)
    requires AllFollow(clog, index)
    ensures AllFollow(clog + [column], index)
    ensures Resolve(clog + [column], index) == Resolve(clog, index)
  {
  }

  lemma UpdateResolves<K>(clog: seq<Column>, index: map<K, ColumnsLocation>, k: K, l: ColumnsLocation)
    requires AllFollow(clog, index) && Follows(clog, l)
    ensures AllFollow(clog, index[k := l])
    ensures Resolve(clog, index[k := l]) == Resolve(clog, index)[k := StoredAt(clog, l)]
  {
  }

  lemma ResolveAt<K>(clog: seq<Column>, index: map<K, ColumnsLocation>, k: K)
    requires AllFollow(clog, index) && k in index
    ensures Resolve(clog, index)[k] == StoredAt(clog, index[k])
  {
  }

  class BlockStorage {
    var clog: seq<Column>
    var primaryIndex: map<BlockHash, ColumnsLocation>
    var byLevelIndex: map<Level, ColumnsLocation>
    var byContextHashIndex: map<ContextHash, ColumnsLocation>

    // What the storage holds, for its readers.
    ghost var contents: map<BlockHash, Stored>
    // The newest entry per level.
    ghost var byLevel: map<Level, Stored>
    // The entry a context was assigned to; readers by context only use the header.
    ghost var byContext: map<ContextHash, Stored>

    /** Every location can be followed, the indexes stand for the maps above, and headers are
        filed under their own hash and level. */
    ghost predicate Valid()
      reads this
    {
      && AllFollow(clog, primaryIndex) && contents == Resolve(clog, primaryIndex)
      && AllFollow(clog, byLevelIndex) && byLevel == Resolve(clog, byLevelIndex)
      && AllFollow(clog, byContextHashIndex) && byContext == Resolve(clog, byContextHashIndex)
      && (forall b :: b in contents ==> contents[b].header.hash == b)
      && (forall l :: l in byLevel ==> byLevel[l].header.level == l)
    }

    constructor ()
      ensures Valid() && contents == map[] && byLevel == map[] && byContext == map[]
    {
      clog, primaryIndex, byLevelIndex, byContextHashIndex := [], map[], map[], map[];
      contents, byLevel, byContext := map[], map[], map[];
    }

    method AppendToLog(column: Column)
      requires Valid()
      modifies this`clog
      ensures Valid() && clog == old(clog) + [column]
      ensures contents == old(contents) && byLevel == old(byLevel) && byContext == old(byContext)
    {
      AppendKeeps(clog, column, primaryIndex);
      AppendKeeps(clog, column, byLevelIndex);
      AppendKeeps(clog, column, byContextHashIndex);
      clog := clog + [column];
    }

    /** The location becomes the newest one of its block. */
    method FileByHash(h: Header, location: ColumnsLocation)
      requires Valid() && Follows(clog, location) && StoredAt(clog, location).header == h
      modifies this`primaryIndex, this`contents
      ensures Valid()
      ensures contents == old(contents)[h.hash := StoredAt(clog, location)]
    {
      hide Resolve, AllFollow;
      UpdateResolves(clog, primaryIndex, h.hash, location);
      primaryIndex := primaryIndex[h.hash := location];
      contents := contents[h.hash := StoredAt(clog, location)];
    }

    /** The location becomes the newest one of its level. */
    method FileByLevel(h: Header, location: ColumnsLocation)
      requires Valid() && Follows(clog, location) && StoredAt(clog, location).header == h
      modifies this`byLevelIndex, this`byLevel
      ensures Valid()
      ensures byLevel == old(byLevel)[h.level := StoredAt(clog, location)]
    {
      hide Resolve, AllFollow;
      UpdateResolves(clog, byLevelIndex, h.level, location);
      byLevelIndex := byLevelIndex[h.level := location];
      byLevel := byLevel[h.level := StoredAt(clog, location)];
    }

    /** A header is stored the first time only. */
    method PutBlockHeader(h: Header) returns (isNew: bool)
      requires Valid()
      modifies this
      ensures Valid()
      ensures isNew <==> h.hash !in old(contents)
      ensures contents == if isNew then old(contents)[h.hash := Stored(h, None)] else old(contents)
      ensures byLevel == if isNew then old(byLevel)[h.level := Stored(h, None)] else old(byLevel)
      ensures byContext == old(byContext)
    {
      if h.hash in primaryIndex {
        return false;
      }
      var location := ColumnsLocation(|clog|, None);
      AppendToLog(BlockHeaderColumn(h));
      FileByHash(h, location);
      FileByLevel(h, location);
      isNew := true;
    }

    /** JSON data of a known block replaces what was there; for an unknown block the log grows
        but no reader can tell. `history` is what readers by hash see after each of the three
        writes: the log, the index by hash and the index by level. */
    method PutBlockJsonData(blockHash: BlockHash, json: JsonData)
      returns (r: Result<()>, ghost history: seq<map<BlockHash, Stored>>)
      requires Valid()
      modifies this
      ensures Valid()
      ensures r == if blockHash in old(contents) then Ok(()) else Err(MissingKey)
      ensures blockHash !in old(contents) ==>
                contents == old(contents) && byLevel == old(byLevel)
      ensures blockHash in old(contents) ==>
                var s := Stored(old(contents)[blockHash].header, Some(json));
                && contents == old(contents)[blockHash := s]
                && byLevel == old(byLevel)[s.header.level := s]
                && history == [old(contents), contents, contents]
      ensures byContext == old(byContext)
    {
      hide Resolve;
      var jsonLocation := |clog|;
      AppendToLog(BlockJsonColumn(json));
      history := [contents];
      if blockHash !in primaryIndex {
        return Err(MissingKey), history;
      }
      var location := primaryIndex[blockHash].(blockJsonData := Some(jsonLocation));
      var header := GetBlockHeaderByLocation(location);
      ResolveAt(clog, primaryIndex, blockHash);
      FileByHash(header.value, location);
      history := history + [contents];
      FileByLevel(header.value, location);
      history := history + [contents];
      r := Ok(());
    }

    method AssignToContext(blockHash: BlockHash, contextHash: ContextHash) returns (r: Result<()>)
      requires Valid()
      modifies this`byContextHashIndex, this`byContext
      ensures Valid()
      ensures contents == old(contents) && byLevel == old(byLevel)
      ensures r == if blockHash in contents then Ok(()) else Err(MissingKey)
      ensures byContext == if r.Ok? then old(byContext)[contextHash := contents[blockHash]]
                             else old(byContext)
    {
      if blockHash in primaryIndex {
        UpdateResolves(clog, byContextHashIndex, contextHash, primaryIndex[blockHash]);
        byContextHashIndex := byContextHashIndex[contextHash := primaryIndex[blockHash]];
        byContext := byContext[contextHash := contents[blockHash]];
        r := Ok(());
      } else {
        r := Err(MissingKey);
      }
    }

    /** Following a stored location never meets the wrong kind of column. */
    method GetBlockHeaderByLocation(location: ColumnsLocation) returns (r: Result<Header>)
      requires Follows(clog, location)
      ensures r == Ok(StoredAt(clog, location).header)
    {
      match clog[location.blockHeader] {
        case BlockHeaderColumn(header) => r := Ok(header);
        case BlockJsonColumn(_) => assert false; r := Err(InvalidColumn);
      }
    }

    method GetBlockJsonDataByLocation(location: ColumnsLocation) returns (r: Result<Option<JsonData>>)
      requires Follows(clog, location)
      ensures r == Ok(StoredAt(clog, location).json)
    {
      match location.blockJsonData {
        case None => r := Ok(None);
        case Some(at) =>
          match clog[at] {
            case BlockJsonColumn(json) => r := Ok(Some(json));
            case BlockHeaderColumn(_) => assert false; r := Err(InvalidColumn);
          }
      }
    }

    method Get(blockHash: BlockHash) returns (r: Result<Option<Header>>)
      requires Valid()
      ensures r == Ok(if blockHash in contents then Some(contents[blockHash].header) else None)
    {
      if blockHash !in primaryIndex {
        return Ok(None);
      }
      var header := GetBlockHeaderByLocation(primaryIndex[blockHash]);
      r := Ok(Some(header.value));
    }

    /** Header and JSON data together, only when both are there. */
    method GetWithJsonData(blockHash: BlockHash) returns (r: Result<Option<(Header, JsonData)>>)
      requires Valid()
      ensures r == Ok(if blockHash in contents && contents[blockHash].json.Some?
                      then Some((contents[blockHash].header, contents[blockHash].json.value)) else None)
    {
      if blockHash !in primaryIndex {
        return Ok(None);
      }
      var json := GetBlockJsonDataByLocation(primaryIndex[blockHash]);
      if json.value.None? {
        return Ok(None);
      }
      var header := GetBlockHeaderByLocation(primaryIndex[blockHash]);
      r := Ok(Some((header.value, json.value.value)));
    }

    method GetByContextHash(contextHash: ContextHash) returns (r: Result<Option<Header>>)
      requires Valid()
      ensures r == Ok(if contextHash in byContext then Some(byContext[contextHash].header) else None)
    {
      if contextHash !in byContextHashIndex {
        return Ok(None);
      }
      var header := GetBlockHeaderByLocation(byContextHashIndex[contextHash]);
      r := Ok(Some(header.value));
    }
  }
}
