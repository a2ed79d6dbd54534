/** Building the crypto asset catalog from a checkout of the asset repository. */
module Catalog {
  import opened Options
  import opened Text
  import opened Ordering

  datatype Info = Info(name: string, symbol: string, status: string, id: string)

  /** Reading an info.json: parsed, absent, or failing otherwise. */
  datatype ReadResult = Found(info: Info) | Missing | Broken

  /** One callback of the directory walk. */
  datatype WalkEvent =
    | Unvisitable(missing: bool)
    | Directory
    | File(name: string, parent: string, read: ReadResult)

  datatype DirEntry = DirEntry(name: string, isDir: bool)

  /** The checkout: its chain directories (None if they cannot be listed), and what each chain's files hold. */
  datatype Assets = Assets(entries: Option<seq<DirEntry>>, native: string -> ReadResult, walk: string -> seq<WalkEvent>)

  datatype Record = Record(
    externalId: string, symbol: string, name: string, imageUrl: string, platforms: map<string, string>, status: string)

  const LOGO_ROOT := "https://raw.githubusercontent.com/trustwallet/assets/master/blockchains/"

  function NormalizeStatus(status: string): (r: string)
    ensures r != "" && Lower(r) == r
  {
    var normalized := Lower(Trim(status));
    LowerIdempotent(Trim(status));
    if normalized == "" then "active" else normalized
  }

  function ChainOf(entry: DirEntry): string {
    Lower(Trim(entry.name))
  }

  function NativeRecord(chain: string, info: Info): Option<Record> {
    var symbol, name := Upper(Trim(info.symbol)), Trim(info.name);
    if symbol == "" || name == "" then None
    else Some(Record(chain + ":coin", symbol, name, LOGO_ROOT + chain + "/info/logo.png", map[],
                     NormalizeStatus(info.status)))
  }

  function TokenRecord(chain: string, parent: string, info: Info): Option<Record> {
    var symbol, name := Upper(Trim(info.symbol)), Trim(info.name);
    var assetId := if Trim(info.id) == "" then parent else Trim(info.id);
    if symbol == "" || name == "" || assetId == "" || ' ' in assetId then None
    else Some(Record(chain + ":" + assetId, symbol, name,
                     LOGO_ROOT + chain + "/assets/" + assetId + "/logo.png",
                     map[chain := assetId], NormalizeStatus(info.status)))
  }

  /** A status is what is left of the text without surrounding whitespace, in lower case, or "active" if nothing is. */
  lemma StatusOf(pad: string, core: string, pad': string)
    requires Blank(pad) && Blank(pad')
    requires core != "" ==> core[0] !in WHITESPACE && core[|core| - 1] !in WHITESPACE
    ensures NormalizeStatus(pad + core + pad') == if core == "" then "active" else Lower(core)
  {
    TrimPadded(pad, core, pad');
    hide Trim;
  }

  /** A token file is acceptable exactly if its symbol and name are not blank, and the asset id, its own or else its
      directory's name, is neither empty nor has a space in it; the record holds what the file says. */
  lemma TokenOfFile(chain: string, parent: string, info: Info)
    ensures var id := if Trim(info.id) != "" then Trim(info.id) else parent;
            var r := TokenRecord(chain, parent, info);
            && (r.Some? <==> Trim(info.symbol) != "" && Trim(info.name) != "" && id != "" && ' ' !in id)
            && (r.Some? ==>
                  && r.value.externalId == chain + ":" + id && r.value.platforms == map[chain := id]
                  && Upper(r.value.symbol) == r.value.symbol && Lower(r.value.symbol) == Lower(Trim(info.symbol))
                  && r.value.name == Trim(info.name) && r.value.status == NormalizeStatus(info.status)
                  && r.value.imageUrl == "https://raw.githubusercontent.com/trustwallet/assets/master/blockchains/" +
                                         chain + "/assets/" + id + "/logo.png")
  {
    UpperThenLower(Trim(info.symbol));
    hide Trim;
  }

  function Listed(r: Option<Record>): seq<Record> {
    if r.Some? then [r.value] else []
  }

  function NativeWrites(chain: string, read: ReadResult): seq<Record> {
    if read.Found? then Listed(NativeRecord(chain, read.info)) else []
  }

  predicate IsInfoFile(e: WalkEvent) {
    e.File? && Lower(e.name) == "info.json"
  }

  /** An info.json that was listed but is gone when it is read. */
  predicate Vanished(e: WalkEvent) {
    IsInfoFile(e) && e.read.Missing?
  }

  /** Any failure but that of a missing file or directory. */
  predicate RealError(e: WalkEvent) {
    (e.Unvisitable? && !e.missing) || (IsInfoFile(e) && e.read.Broken?)
  }

  /** The events that end the walk. */
  predicate Stops(e: WalkEvent) {
    RealError(e) || Vanished(e)
  }

  /** Where the walk ends: at its first stopping event, or after all. */
  function FirstStop(events: seq<WalkEvent>): (n: nat)
    ensures n <= |events| && forall i :: 0 <= i < n ==> !Stops(events[i])
    ensures n < |events| ==> Stops(events[n])
  {
    if events == [] || Stops(events[0]) then 0 else 1 + FirstStop(events[1..])
  }

  predicate WalkFails(events: seq<WalkEvent>) {
    var n := FirstStop(events);
    n < |events| && RealError(events[n])
  }

  /** The token record an event stands for, if its file is acceptable. */
  function TokenAt(chain: string, e: WalkEvent): Option<Record> {
    if IsInfoFile(e) && e.read.Found? then TokenRecord(chain, e.parent, e.read.info) else None
  }

  /** The acceptable tokens among the events, in order. */
  function Tokens(chain: string, events: seq<WalkEvent>): seq<Record> {
    if events == [] then []
    else Tokens(chain, events[..|events| - 1]) + Listed(TokenAt(chain, events[|events| - 1]))
  }

  lemma TokensStep(chain: string, events: seq<WalkEvent>, n: nat)
    requires n < |events|
    ensures Tokens(chain, events[..n + 1]) == Tokens(chain, events[..n]) + Listed(TokenAt(chain, events[n]))
  {
    assert events[..n + 1][..n] == events[..n];
  }

  predicate NoTokenIn(chain: string, events: seq<WalkEvent>, n: nat, m: nat) {
    forall j :: n <= j < m <= |events| ==> TokenAt(chain, events[j]).None?
  }

  /** Later events only add tokens, and add none exactly if none of them is acceptable. */
  lemma {:induction false} TokensGrow(chain: string, events: seq<WalkEvent>, n: nat, m: nat)
    requires n <= m <= |events|
    ensures Tokens(chain, events[..n]) <= Tokens(chain, events[..m])
    ensures |Tokens(chain, events[..n])| == |Tokens(chain, events[..m])| <==> NoTokenIn(chain, events, n, m)
  {
    hide Tokens, TokenAt;
    if n < m {
      TokensGrow(chain, events, n, m - 1);
      TokensStep(chain, events, m - 1);
      assert NoTokenIn(chain, events, n, m) <==>
             NoTokenIn(chain, events, n, m - 1) && TokenAt(chain, events[m - 1]).None?;
      hide NoTokenIn;
    }
  }

  /** The walk goes on after what is missing, after a directory or another file, and after an info.json, in any case,
      that can be read. */
  predicate Passes(e: WalkEvent) {
    && e != Unvisitable(false)
    && (e.File? && Lower(e.name) == "info.json" ==> e.read.Found?)
  }

  /** The walk comes to its n-th event. */
  predicate Reached(events: seq<WalkEvent>, n: nat)
    requires n <= |events|
  {
    forall j :: 0 <= j < n ==> Passes(events[j])
  }

  lemma PassesIff(e: WalkEvent)
    ensures Passes(e) <==> !Stops(e)
  {
  }

  lemma ReachedIff(events: seq<WalkEvent>, n: nat)
    requires n <= |events|
    ensures Reached(events, n) <==> n <= FirstStop(events)
  {
    hide Passes, Stops, FirstStop;
    forall j | 0 <= j < |events| ensures Passes(events[j]) <==> !Stops(events[j]) {
      PassesIff(events[j]);
    }
  }

  /** The walk fails exactly if it comes to a directory that is there but cannot be visited, or to an info.json that is
      there but cannot be read. */
  lemma WalkFailsIff(events: seq<WalkEvent>)
    ensures WalkFails(events) <==>
              exists n :: 0 <= n < |events| && Reached(events, n) &&
                          (events[n] == Unvisitable(false) ||
                           (events[n].File? && Lower(events[n].name) == "info.json" && events[n].read.Broken?))
  {
    forall n | 0 <= n < |events| ensures Reached(events, n) <==> n <= FirstStop(events) {
      ReachedIff(events, n);
    }
    hide Reached, FirstStop;
  }

  /** What the walk writes are the records of the info.json files it comes to. */
  lemma WalkWritesIff(chain: string, events: seq<WalkEvent>, r: Record)
    ensures r in Tokens(chain, events[..FirstStop(events)]) <==>
              exists n :: 0 <= n < |events| && Reached(events, n) && events[n].File? &&
                          Lower(events[n].name) == "info.json" && events[n].read.Found? &&
                          TokenRecord(chain, events[n].parent, events[n].read.info) == Some(r)
  {
    var stop := FirstStop(events);
    TokensMembers(chain, events[..stop], r);
    forall n | 0 <= n < |events|
      ensures n < stop && TokenAt(chain, events[n]) == Some(r) <==>
                Reached(events, n) && TokenAt(chain, events[n]) == Some(r)
    {
      ReachedIff(events, n);
      StopWritesNothing(chain, events);
      hide Reached, TokenAt;
    }
    forall n | 0 <= n < |events| {
      TokenAtIff(chain, events[n], r);
    }
    hide Reached, FirstStop, TokenAt, TokenRecord, Tokens;
    assert forall n :: 0 <= n < stop ==> events[..stop][n] == events[n];
  }

  lemma StopWritesNothing(chain: string, events: seq<WalkEvent>)
    ensures FirstStop(events) < |events| ==> TokenAt(chain, events[FirstStop(events)]).None?
  {
    hide TokenRecord;
  }

  lemma TokenAtIff(chain: string, e: WalkEvent, r: Record)
    ensures TokenAt(chain, e) == Some(r) <==>
              e.File? && Lower(e.name) == "info.json" && e.read.Found? &&
              TokenRecord(chain, e.parent, e.read.info) == Some(r)
  {
    hide TokenRecord;
  }

  lemma {:induction false} TokensMembers(chain: string, events: seq<WalkEvent>, r: Record)
    ensures r in Tokens(chain, events) <==> exists n :: 0 <= n < |events| && TokenAt(chain, events[n]) == Some(r)
  {
    hide TokenAt;
    if events != [] {
      var k := |events| - 1;
      TokensMembers(chain, events[..k], r);
      assert r in Listed(TokenAt(chain, events[k])) <==> TokenAt(chain, events[k]) == Some(r);
      assert forall n :: 0 <= n < k ==> events[..k][n] == events[n];
    }
  }

  /** A walk that does not fail writes every acceptable token exactly if none comes after an info.json that vanished. */
  lemma NothingDroppedIff(chain: string, events: seq<WalkEvent>)
    requires !WalkFails(events)
    ensures Tokens(chain, events[..FirstStop(events)]) == Tokens(chain, events) <==>
              forall i :: 0 <= i < |events| && Vanished(events[i]) ==> NoTokenIn(chain, events, i + 1, |events|)
  {
    var stop := FirstStop(events);
    TokensGrow(chain, events, stop, |events|);
    assert events[..|events|] == events;
    if stop < |events| {
      assert Vanished(events[stop]) && TokenAt(chain, events[stop]).None?;
    }
    forall i | 0 <= i < stop ensures !Vanished(events[i]) {
      assert !Stops(events[i]);
    }
    hide Tokens, FirstStop, TokenAt, Vanished, Stops, RealError, WalkFails;
  }

  /** For example, one file that vanished hides the acceptable token after it, and the walk does not fail. */
  lemma VanishedFileHidesToken(chain: string, parent: string, info: Info)
    requires TokenRecord(chain, parent, info).Some?
    ensures var events := [File("info.json", "gone", Missing), File("info.json", parent, Found(info))];
            && !WalkFails(events)
            && Tokens(chain, events[..FirstStop(events)]) == []
            && Tokens(chain, events) == [TokenRecord(chain, parent, info).value]
  {
    var gone, kept := File("info.json", "gone", Missing), File("info.json", parent, Found(info));
    assert Lower("info.json") == "info.json";
    assert Vanished(gone) && FirstStop([gone, kept]) == 0;
    assert [gone, kept][..1] == [gone] && [gone][..0] == [];
    assert Tokens(chain, [gone]) == [];
  }

  /** What the walk writes about a chain: ids of the chain, without spaces, that name their own asset. */
  predicate TokenOf(chain: string, r: Record) {
    && chain in r.platforms && r.externalId == chain + ":" + r.platforms[chain]
    && r.platforms[chain] != "" && ' ' !in r.platforms[chain] && r.symbol != "" && r.name != ""
  }

  lemma {:induction false} WalkWritesTokens(chain: string, events: seq<WalkEvent>)
    ensures forall r :: r in Tokens(chain, events) ==> TokenOf(chain, r)
  {
    if events != [] {
      WalkWritesTokens(chain, events[..|events| - 1]);
    }
  }

  predicate IsChain(entry: DirEntry) {
    entry.isDir && ChainOf(entry) != ""
  }

  /** A chain is a directory, named without surrounding whitespace and in lower case, unless nothing is left. */
  lemma ChainOfName(pad: string, core: string, pad': string, isDir: bool)
    requires Blank(pad) && Blank(pad')
    requires core != "" ==> core[0] !in WHITESPACE && core[|core| - 1] !in WHITESPACE
    ensures ChainOf(DirEntry(pad + core + pad', isDir)) == Lower(core)
    ensures IsChain(DirEntry(pad + core + pad', isDir)) <==> isDir && core != ""
  {
    TrimPadded(pad, core, pad');
    hide Trim;
  }

  /** Its native coin cannot be read, or its walk fails. */
  predicate ChainFails(assets: Assets, chain: string) {
    assets.native(chain).Broken? || WalkFails(assets.walk(chain))
  }

  predicate SomeChainFails(assets: Assets, entries: seq<DirEntry>) {
    exists n :: 0 <= n < |entries| && IsChain(entries[n]) && ChainFails(assets, ChainOf(entries[n]))
  }

  function ChainWrites(assets: Assets, chain: string): seq<Record> {
    NativeWrites(chain, assets.native(chain)) +
    Tokens(chain, assets.walk(chain)[..FirstStop(assets.walk(chain))])
  }

  /** What the chains write, in the order they are listed. */
  function AllWrites(assets: Assets, entries: seq<DirEntry>): seq<Record> {
    if entries == [] then []
    else
      var last := entries[|entries| - 1];
      AllWrites(assets, entries[..|entries| - 1]) + if IsChain(last) then ChainWrites(assets, ChainOf(last)) else []
  }

  lemma AllWritesStep(assets: Assets, entries: seq<DirEntry>, n: nat)
    requires n < |entries|
    ensures AllWrites(assets, entries[..n + 1]) ==
            AllWrites(assets, entries[..n]) +
            if IsChain(entries[n]) then ChainWrites(assets, ChainOf(entries[n])) else []
  {
    assert entries[..n + 1][..n] == entries[..n];
  }

  /** The last write for an id. */
  function LastWrite(writes: seq<Record>, id: string): Option<Record> {
    if writes == [] then None
    else if writes[|writes| - 1].externalId == id then Some(writes[|writes| - 1])
    else LastWrite(writes[..|writes| - 1], id)
  }

  /** The map of records holds the last write of each id. */
  ghost predicate Holds(records: map<string, Record>, writes: seq<Record>) {
    forall id :: Lookup(records, id) == LastWrite(writes, id)
  }

  lemma {:induction false} LastWriteConcat(a: seq<Record>, b: seq<Record>, id: string)
    ensures LastWrite(a + b, id) == if LastWrite(b, id).Some? then LastWrite(b, id) else LastWrite(a, id)
  {
    if b == [] {
      assert a + b == a;
    } else {
      assert (a + b)[..|a + b| - 1] == a + b[..|b| - 1];
      LastWriteConcat(a, b[..|b| - 1], id);
    }
  }

  lemma {:induction false} LastWriteHasId(writes: seq<Record>, id: string)
    ensures LastWrite(writes, id).Some? ==>
              LastWrite(writes, id).value.externalId == id && LastWrite(writes, id).value in writes
    ensures LastWrite(writes, id).None? <==> forall r :: r in writes ==> r.externalId != id
  {
    if writes != [] {
      LastWriteHasId(writes[..|writes| - 1], id);
      assert forall r :: r in writes <==> r in writes[..|writes| - 1] || r == writes[|writes| - 1];
    }
  }

  lemma HoldsAfterWrite(records: map<string, Record>, writes: seq<Record>, r: Record)
    requires Holds(records, writes)
    ensures Holds(records[r.externalId := r], writes + [r])
  {
    forall id ensures Lookup(records[r.externalId := r], id) == LastWrite(writes + [r], id) {
      assert (writes + [r])[..|writes|] == writes;
      assert Lookup(records, id) == LastWrite(writes, id);
    }
  }

  predicate RecordLe(a: Record, b: Record) {
    StrLe(a.externalId, b.externalId)
  }

  lemma RecordLeIsComparison()
    ensures Comparison(RecordLe)
  {
    forall a, b ensures RecordLe(a, b) || RecordLe(b, a) { StrLeTotal(a.externalId, b.externalId); }
    forall a, b, c | RecordLe(a, b) && RecordLe(b, c) ensures RecordLe(a, c) {
      StrLeTransitive(a.externalId, b.externalId, c.externalId);
    }
  }

  class CatalogBuilder {
    var recordsById: map<string, Record>
    ghost var writes: seq<Record>

    constructor ()
      ensures recordsById == map[] && writes == [] && Holds(recordsById, writes)
    {
      recordsById, writes := map[], [];
    }

    method Write(r: Record)
      requires Holds(recordsById, writes)
      modifies this
      ensures Holds(recordsById, writes) && writes == old(writes) + [r]
      ensures recordsById == old(recordsById)[r.externalId := r]
    {
      HoldsAfterWrite(recordsById, writes, r);
      recordsById := recordsById[r.externalId := r];
      writes := writes + [r];
    }

    /** A native coin that can be read and has a symbol and a name is written under the chain's coin id, replacing any
        earlier record of that id; otherwise nothing is written. Only an unreadable file that exists is a failure. */
    method CollectNativeCoin(chain: string, read: ReadResult) returns (failed: bool)
      requires Holds(recordsById, writes)
      modifies this
      ensures Holds(recordsById, writes) && writes == old(writes) + NativeWrites(chain, read)
      ensures failed <==> read.Broken?
      ensures if read.Found? && Trim(read.info.symbol) != "" && Trim(read.info.name) != ""
              then
                && recordsById.Keys == old(recordsById).Keys + {chain + ":coin"}
                && (forall id :: id in old(recordsById) && id != chain + ":coin" ==>
                      recordsById[id] == old(recordsById)[id])
                && var coin := recordsById[chain + ":coin"];
                && coin.externalId == chain + ":coin" && coin.platforms == map[]
                && Lower(coin.symbol) == Lower(Trim(read.info.symbol)) && Upper(coin.symbol) == coin.symbol
                && coin.name == Trim(read.info.name) && coin.status == NormalizeStatus(read.info.status)
                && coin.imageUrl == "https://raw.githubusercontent.com/trustwallet/assets/master/blockchains/" +
                                    chain + "/info/logo.png"
              else recordsById == old(recordsById)
    {
      if read.Found? {
        UpperThenLower(Trim(read.info.symbol));
      }
      match read {
        case Missing => return false;
        case Broken => return true;
        case Found(info) =>
          var symbol, name, status := Upper(Trim(info.symbol)), Trim(info.name), NormalizeStatus(info.status);
          if symbol == "" || name == "" {
            return false;
          }
          Write(Record(chain + ":coin", symbol, name, LOGO_ROOT + chain + "/info/logo.png", map[], status));
          return false;
      }
    }

    /** One info.json of a token. */
    method CollectToken(chain: string, parent: string, info: Info)
      requires Holds(recordsById, writes)
      modifies this
      ensures Holds(recordsById, writes) && writes == old(writes) + Listed(TokenRecord(chain, parent, info))
    {
      var symbol, name, status := Upper(Trim(info.symbol)), Trim(info.name), NormalizeStatus(info.status);
      var assetId := Trim(info.id);
      if assetId == "" {
        assetId := parent;
      }
      if symbol == "" || name == "" || assetId == "" {
        return;
      }
      if ' ' in assetId {
        return;
      }
      Write(Record(chain + ":" + assetId, symbol, name, LOGO_ROOT + chain + "/assets/" + assetId + "/logo.png",
                   map[chain := assetId], status));
    }

    /** The walk ends at its first stopping event and has then written the acceptable tokens before it; it fails
        exactly if that event is a real error. */
    method CollectTokenAssets(chain: string, events: seq<WalkEvent>) returns (failed: bool)
      requires Holds(recordsById, writes)
      modifies this
      ensures Holds(recordsById, writes)
      ensures failed <==> WalkFails(events)
      ensures writes == old(writes) + Tokens(chain, events[..FirstStop(events)])
    {
      hide TokenRecord, Holds;
      for n := 0 to |events|
        invariant Holds(recordsById, writes)
        invariant n <= FirstStop(events)
        invariant writes == old(writes) + Tokens(chain, events[..n])
      {
        assert events[..n + 1][..n] == events[..n];
        assert Stops(events[n]) ==> FirstStop(events) == n;
        match events[n] {
          case Unvisitable(missing) =>
            if !missing {
              return true;
            }
          case Directory =>
          case File(name, parent, read) =>
            if Lower(name) == "info.json" {
              match read {
                case Missing => return false;
                case Broken => return true;
                case Found(info) => CollectToken(chain, parent, info);
              }
            }
        }
      }
      failed := false;
    }

    /** One directory entry of the chains. */
    method CollectEntry(assets: Assets, entry: DirEntry) returns (failed: bool)
      requires Holds(recordsById, writes)
      modifies this
      ensures Holds(recordsById, writes)
      ensures failed <==> IsChain(entry) && ChainFails(assets, ChainOf(entry))
      ensures !failed ==>
                writes == old(writes) + if IsChain(entry) then ChainWrites(assets, ChainOf(entry)) else []
    {
      hide NativeWrites, WalkFails, Tokens, FirstStop, Holds, ChainOf;
      var chain := ChainOf(entry);
      if !entry.isDir || chain == "" {
        return false;
      }
      failed := CollectNativeCoin(chain, assets.native(chain));
      if failed {
        return;
      }
      failed := CollectTokenAssets(chain, assets.walk(chain));
    }

    /** `buildCatalog`: fails exactly if the chains cannot be listed or one of them fails; otherwise the records are
        strictly increasing by ExternalID and are the last write of each id. */
    method BuildCatalog(assets: Assets) returns (r: Option<seq<Record>>)
      requires recordsById == map[] && writes == []
      modifies this
      ensures r.None? <==> assets.entries.None? || SomeChainFails(assets, assets.entries.value)
      ensures r.Some? ==> IsCatalog(r.value, AllWrites(assets, assets.entries.value))
    {
      hide ChainOf, IsCatalog, ChainFails, ChainWrites;
      if assets.entries.None? {
        return None;
      }
      var entries := assets.entries.value;
      for n := 0 to |entries|
        invariant Holds(recordsById, writes)
        invariant writes == AllWrites(assets, entries[..n])
        invariant forall m :: 0 <= m < n ==> !(IsChain(entries[m]) && ChainFails(assets, ChainOf(entries[m])))
      {
        AllWritesStep(assets, entries, n);
        hide IsChain, AllWrites, Holds, LastWrite;
        var failed := CollectEntry(assets, entries[n]);
        if failed {
          return None;
        }
      }
      assert entries[..|entries|] == entries;
      var records := SortedRecords();
      r := Some(records);
    }

    /** List the map's records in whatever order it is iterated, then sort them by id. */
    method SortedRecords() returns (records: seq<Record>)
      requires Holds(recordsById, writes)
      ensures IsCatalog(records, writes)
    {
      RecordLeIsComparison();
      forall id | id in recordsById ensures recordsById[id].externalId == id {
        assert Lookup(recordsById, id) == LastWrite(writes, id);
        LastWriteHasId(writes, id);
      }
      var values := set id | id in recordsById :: recordsById[id];
      forall a, b | a in values && b in values && RecordLe(a, b) && RecordLe(b, a) ensures a == b {
        StrLeAntisymmetric(a.externalId, b.externalId);
      }
      records := SortedSet(values, RecordLe);
      forall x ensures x in records <==> LastWrite(writes, x.externalId) == Some(x) {
        assert x in records <==> x in Elements(records);
        assert Lookup(recordsById, x.externalId) == LastWrite(writes, x.externalId);
      }
    }
  }

  /** A catalog of the writes: strictly increasing by id, with exactly the last write of each id. */
  ghost predicate IsCatalog(records: seq<Record>, writes: seq<Record>) {
    && (forall i, j :: 0 <= i < j < |records| ==> StrLt(records[i].externalId, records[j].externalId))
    && (forall x :: x in records <==> LastWrite(writes, x.externalId) == Some(x))
  }

  /** The writes have one catalog, whatever order the map is iterated in. */
  lemma CatalogIsUnique(records: seq<Record>, records': seq<Record>, writes: seq<Record>)
    requires IsCatalog(records, writes) && IsCatalog(records', writes)
    ensures records == records'
  {
    RecordLeIsComparison();
    StrictIsAscending(records);
    StrictIsAscending(records');
    assert Elements(records) == Elements(records');
    AscendingIsUnique(records, records', RecordLe);
  }

  lemma StrictIsAscending(records: seq<Record>)
    requires forall i, j :: 0 <= i < j < |records| ==> StrLt(records[i].externalId, records[j].externalId)
    ensures Ascending(records, RecordLe)
  {
    forall i, j | 0 <= i < j < |records| ensures !RecordLe(records[j], records[i]) {
      if RecordLe(records[j], records[i]) {
        StrLeAntisymmetric(records[i].externalId, records[j].externalId);
      }
    }
  }
}
