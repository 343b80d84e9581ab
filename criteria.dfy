/**
 * The inclusion criteria (std_check_read, tile_check_read, id_check_read)
 * and the chain that ANDs them. A criterion answers None where the C code
 * would have undefined behaviour (a NULL string reaching strcmp or the
 * hash lookup).
 */
module Criteria {
  import opened Wrappers
  import opened StrTok
  import opened Fastq

  /** get_tile_id: the fifth ':'-token of an R1 header, None (NULL) when it has fewer than five. */
  function TileId(header: string): Option<string>
  {
    TokenAt(Tokens(header, ':'), 4)
  }

  /** get_tile_id calls strtok once and then four more times. */
  method GetTileId(header: string) returns (field: Option<string>)
    ensures field == TileId(header)
  {
    ghost var ts := Tokens(header, ':');
    StrtokStep(ts, 0, header, ':');
    var call := NextToken(header, ':');
    var rest := call.1;
    field := call.0;
    var i := 0;
    while i < 4
      invariant 0 <= i <= 4
      invariant field == TokenAt(ts, i)
      invariant Tokens(rest, ':') == Drop(ts, i + 1)
    {
      StrtokStep(ts, i + 1, rest, ':');
      call := NextToken(rest, ':');
      field, rest := call.0, call.1;
      i := i + 1;
    }
  }

  /** The tile id is the fifth non-empty ':'-separated field. */
  lemma TileIdIsFifthNonEmptyField(header: string)
    ensures TileId(header) == TokenAt(NonEmpty(Split(header, ':')), 4)
  {
    TokensAreNonEmptyFields(header, ':');
  }

  /** std_check_read: both sequence lines, '\n' included, are longer than the threshold. */
  predicate LengthAccepts(threshold: nat, pair: ReadPair)
  {
    |pair.r1.sequence| > threshold && |pair.r2.sequence| > threshold
  }

  /** The '\n' counts: with well-formed sequence lines, the length check passes iff both reads have at least threshold bases. */
  lemma LengthCountsNewline(threshold: nat, pair: ReadPair)
    requires IsLine(pair.r1.sequence) && IsLine(pair.r2.sequence)
    ensures Accepts(Length(threshold), pair).Some?
    ensures Accepts(Length(threshold), pair) == Some(true) <==>
      |Chomp(pair.r1.sequence)| >= threshold && |Chomp(pair.r2.sequence)| >= threshold
  {
  }

  /** tile_check_read: compares the tile id against every listed tile. */
  function TileAccepts(tiles: seq<string>, header: string): Option<bool>
  {
    if tiles == [] then Some(true)
    else match TileId(header)
      case None => None
      case Some(id) => Some(id !in tiles)
  }

  /** The key id_check_read looks up: the first ' '-token of the R1 header. */
  function HeaderKey(header: string): Option<string>
  {
    NextToken(header, ' ').0
  }

  /** id_check_read: rejects iff the header's key is one of the keys. */
  function IdAccepts(keys: set<string>, header: string): Option<bool>
  {
    match HeaderKey(header)
    case None => None
    case Some(k) => Some(k !in keys)
  }

  /** One entry in the criteria array, with the data it reads. */
  datatype Criterion = Length(threshold: nat) | Tile(tiles: seq<string>) | ReadId(keys: set<string>)

  function Accepts(c: Criterion, pair: ReadPair): Option<bool>
  {
    match c
    case Length(t) => Some(LengthAccepts(t, pair))
    case Tile(tiles) => TileAccepts(tiles, pair.r1.header)
    case ReadId(keys) => IdAccepts(keys, pair.r1.header)
  }

  /**
   * The verdict of a chain: undefined if any criterion is, otherwise
   * whether every criterion accepts.
   */
  function ChainVerdict(chain: seq<Criterion>, pair: ReadPair): Option<bool>
  {
    if exists i :: 0 <= i < |chain| && Accepts(chain[i], pair).None? then None
    else Some(forall i :: 0 <= i < |chain| ==> Accepts(chain[i], pair) == Some(true))
  }

  /** tile_check_read walks the whole tile list, clearing ret_val on every match. */
  method TileCheckRead(tiles: seq<string>, pair: ReadPair) returns (ok: Option<bool>)
    ensures ok == TileAccepts(tiles, pair.r1.header)
  {
    var readId := pair.r1.header;  // strtok works on this copy
    var tileId := GetTileId(readId);
    var retVal := true;
    var i := 0;
    while i < |tiles|
      invariant 0 <= i <= |tiles|
      invariant 0 < i ==> tileId.Some?
      invariant retVal == (i == 0 || tileId.value !in tiles[..i])
    {
      if tileId.None? {
        return None;  // strcmp against a NULL tile id
      }
      if tiles[i] == tileId.value {
        retVal := false;
      }
      assert tiles[..i + 1] == tiles[..i] + [tiles[i]];
      i := i + 1;
    }
    assert tiles[..i] == tiles;
    return Some(retVal);
  }

  /** Calls the criterion's check function. */
  method Check(c: Criterion, pair: ReadPair) returns (v: Option<bool>)
    ensures v == Accepts(c, pair)
  {
    match c
    case Length(t) =>
      v := Some(LengthAccepts(t, pair));
    case Tile(tiles) =>
      v := TileCheckRead(tiles, pair);
    case ReadId(keys) =>
      v := IdAccepts(keys, pair.r1.header);
  }

  /** The loop of filter_fastqs over all ncriteria + 1 criteria, with no early exit on a rejection. */
  method EvaluateChain(chain: seq<Criterion>, pair: ReadPair) returns (included: Option<bool>)
    ensures included == ChainVerdict(chain, pair)
  {
    var readIncluded := true;
    for i := 0 to |chain|
      invariant forall j :: 0 <= j < i ==> Accepts(chain[j], pair).Some?
      invariant readIncluded == forall j :: 0 <= j < i ==> Accepts(chain[j], pair) == Some(true)
    {
      var v := Check(chain[i], pair);
      if v.None? {
        return None;
      }
      if v.value == false {
        readIncluded := false;
      }
    }
    return Some(readIncluded);
  }

  /** The verdict does not depend on the order of the criteria, nor on how often one is repeated. */
  lemma ChainOrderIrrelevant(a: seq<Criterion>, b: seq<Criterion>, pair: ReadPair)
    requires forall c :: c in a <==> c in b
    ensures ChainVerdict(a, pair) == ChainVerdict(b, pair)
  {
    SameUndefined(a, b, pair);
    SameUndefined(b, a, pair);
    SameAccepted(a, b, pair);
    SameAccepted(b, a, pair);
  }

  lemma SameUndefined(a: seq<Criterion>, b: seq<Criterion>, pair: ReadPair)
    requires forall c :: c in a ==> c in b
    ensures (exists i :: 0 <= i < |a| && Accepts(a[i], pair).None?) ==> (exists j :: 0 <= j < |b| && Accepts(b[j], pair).None?)
  {
    if exists i :: 0 <= i < |a| && Accepts(a[i], pair).None? {
      var i :| 0 <= i < |a| && Accepts(a[i], pair).None?;
      assert a[i] in b;
      var j :| 0 <= j < |b| && b[j] == a[i];
    }
  }

  lemma SameAccepted(a: seq<Criterion>, b: seq<Criterion>, pair: ReadPair)
    requires forall c :: c in a ==> c in b
    ensures (forall j :: 0 <= j < |b| ==> Accepts(b[j], pair) == Some(true)) ==> (forall i :: 0 <= i < |a| ==> Accepts(a[i], pair) == Some(true))
  {
    forall i | 0 <= i < |a| && (forall j :: 0 <= j < |b| ==> Accepts(b[j], pair) == Some(true))
      ensures Accepts(a[i], pair) == Some(true)
    {
      assert a[i] in b;
    }
  }

  /** A permutation of the chain has the same verdict. */
  lemma ChainPermutation(a: seq<Criterion>, b: seq<Criterion>, pair: ReadPair)
    requires multiset(a) == multiset(b)
    ensures ChainVerdict(a, pair) == ChainVerdict(b, pair)
  {
    forall c ensures c in a <==> c in b {
      assert c in a <==> c in multiset(a);
      assert c in b <==> c in multiset(b);
    }
    ChainOrderIrrelevant(a, b, pair);
  }

  /** Chains compose: a pair passes a + b iff it passes both, and is undefined iff either is. */
  lemma ChainAppend(a: seq<Criterion>, b: seq<Criterion>, pair: ReadPair)
    ensures ChainVerdict(a + b, pair) ==
      match (ChainVerdict(a, pair), ChainVerdict(b, pair))
      case (Some(x), Some(y)) => Some(x && y)
      case _ => None
  {
    var ab := a + b;
    assert forall i :: 0 <= i < |a| ==> ab[i] == a[i];
    assert forall i :: 0 <= i < |b| ==> ab[|a| + i] == b[i];
    if exists i :: 0 <= i < |ab| && Accepts(ab[i], pair).None? {
      var i :| 0 <= i < |ab| && Accepts(ab[i], pair).None?;
      if i >= |a| {
        assert Accepts(b[i - |a|], pair).None?;
      }
    }
  }

  /** A pair the chain keeps is accepted by each of its criteria, the default length check first. */
  lemma IncludedMeansEveryCriterion(chain: seq<Criterion>, pair: ReadPair, i: nat)
    requires ChainVerdict(chain, pair) == Some(true)
    requires i < |chain|
    ensures Accepts(chain[i], pair) == Some(true)
    ensures chain[i].Length? ==> |pair.r1.sequence| > chain[i].threshold && |pair.r2.sequence| > chain[i].threshold
  {
  }

  /** A rejecting criterion anywhere in a defined chain removes the pair. */
  lemma OneRejectionRemoves(chain: seq<Criterion>, pair: ReadPair, i: nat)
    requires i < |chain| && Accepts(chain[i], pair) == Some(false)
    ensures ChainVerdict(chain, pair) != Some(true)
  {
  }

  /** The tile criterion rejects exactly the pairs whose tile id is listed; with no tiles it accepts every pair. */
  lemma TileCriterion(tiles: seq<string>, pair: ReadPair)
    ensures tiles == [] ==> Accepts(Tile(tiles), pair) == Some(true)
    ensures tiles != [] && TileId(pair.r1.header).Some? ==>
      (Accepts(Tile(tiles), pair) == Some(false) <==> TileId(pair.r1.header).value in tiles)
    ensures tiles != [] && TileId(pair.r1.header).None? ==> Accepts(Tile(tiles), pair).None?
  {
  }

  /** A header with no space is its own key, newline included. */
  lemma HeaderKeyWithoutSpace(header: string)
    requires header != [] && ' ' !in header
    ensures HeaderKey(header) == Some(header)
  {
    FirstTokenOfWhole(header, ' ');
  }

  /** A header "@id meta" has the key "@id". */
  lemma HeaderKeyWithSpace(id: string, meta: string)
    requires ' ' !in id
    ensures HeaderKey("@" + id + " " + meta) == Some("@" + id)
  {
    assert "@" + id + " " + meta == ("@" + id) + [' '] + meta;
    FirstTokenOfField("@" + id, ' ', meta);
  }

}
