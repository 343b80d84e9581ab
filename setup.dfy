/**
 * What main configures before filtering: the criteria chain, assembled
 * from the --remove_tiles and --remove_reads options in command-line
 * order, and the default output paths (build_output_path).
 */
module Setup {
  import opened Wrappers
  import opened Fastq
  import opened Criteria
  import opened Exclusion

  /** An option of main that appends a criterion: its argument, or the lines of the named file. */
  datatype ChainOption = RemoveTiles(arg: string) | RemoveReads(lines: seq<CString>)

  /** tiles_to_remove once all options are parsed: each --remove_tiles rebuilds it. */
  function LastTiles(opts: seq<ChainOption>): seq<string>
  {
    if opts == [] then []
    else match opts[|opts| - 1]
      case RemoveTiles(arg) => TileList(arg)
      case RemoveReads(_) => LastTiles(opts[..|opts| - 1])
  }

  /** reads_to_remove once all options are parsed: each --remove_reads rebuilds it. */
  function LastKeys(opts: seq<ChainOption>): set<string>
  {
    if opts == [] then {}
    else match opts[|opts| - 1]
      case RemoveReads(lines) => ExclusionKeys(lines)
      case RemoveTiles(_) => LastKeys(opts[..|opts| - 1])
  }

  /**
   * The criteria array: std_check_read first, then one entry per option.
   * The C entries are function pointers that read the globals, so every
   * tile entry sees the last tile list and every read-id entry the last key set.
   */
  function BuildChain(threshold: nat, opts: seq<ChainOption>): (chain: seq<Criterion>)
  {
    [Length(threshold)] +
    seq(|opts|, i requires 0 <= i < |opts| =>
      if opts[i].RemoveTiles? then Tile(LastTiles(opts)) else ReadId(LastKeys(opts)))
  }

  /** The chain has ncriteria + 1 entries, the length check first and the rest in option order. */
  lemma ChainShape(threshold: nat, opts: seq<ChainOption>)
    ensures |BuildChain(threshold, opts)| == |opts| + 1
    ensures BuildChain(threshold, opts)[0] == Length(threshold)
    ensures forall i :: 0 <= i < |opts| ==>
      && (BuildChain(threshold, opts)[i + 1].Tile? <==> opts[i].RemoveTiles?)
      && (BuildChain(threshold, opts)[i + 1].ReadId? <==> opts[i].RemoveReads?)
      && (opts[i].RemoveTiles? ==> BuildChain(threshold, opts)[i + 1].tiles == LastTiles(opts))
      && (opts[i].RemoveReads? ==> BuildChain(threshold, opts)[i + 1].keys == LastKeys(opts))
  {
  }

  /** The tile list every tile criterion uses comes from the last --remove_tiles option. */
  lemma {:induction false} LastTileOptionWins(opts: seq<ChainOption>, j: nat)
    requires j < |opts| && opts[j].RemoveTiles?
    requires forall k :: j < k < |opts| ==> !opts[k].RemoveTiles?
    ensures LastTiles(opts) == TileList(opts[j].arg)
    decreases |opts|
  {
    if j < |opts| - 1 {
      LastTileOptionWins(opts[..|opts| - 1], j);
    }
  }

  /** The key set every read-id criterion uses comes from the last --remove_reads option. */
  lemma {:induction false} LastReadsOptionWins(opts: seq<ChainOption>, j: nat)
    requires j < |opts| && opts[j].RemoveReads?
    requires forall k :: j < k < |opts| ==> !opts[k].RemoveReads?
    ensures LastKeys(opts) == ExclusionKeys(opts[j].lines)
    decreases |opts|
  {
    if j < |opts| - 1 {
      LastReadsOptionWins(opts[..|opts| - 1], j);
    }
  }

  /** The chain without repetitions: the length check, then at most one tile and one read-id criterion. */
  function CanonicalChain(threshold: nat, opts: seq<ChainOption>): seq<Criterion>
  {
    [Length(threshold)] +
    (if exists i :: 0 <= i < |opts| && opts[i].RemoveTiles? then [Tile(LastTiles(opts))] else []) +
    (if exists i :: 0 <= i < |opts| && opts[i].RemoveReads? then [ReadId(LastKeys(opts))] else [])
  }

  /** Repeating an option only repeats a criterion: the verdict is that of the canonical chain. */
  lemma RepeatedOptionsAddNothing(threshold: nat, opts: seq<ChainOption>, pair: ReadPair)
    ensures ChainVerdict(BuildChain(threshold, opts), pair) == ChainVerdict(CanonicalChain(threshold, opts), pair)
  {
    var a, b := BuildChain(threshold, opts), CanonicalChain(threshold, opts);
    forall c ensures c in a <==> c in b {
      if c in a {
        BuiltInCanonical(threshold, opts, c);
      }
      if c in b {
        CanonicalInBuilt(threshold, opts, c);
      }
    }
    ChainOrderIrrelevant(a, b, pair);
  }

  lemma BuiltInCanonical(threshold: nat, opts: seq<ChainOption>, c: Criterion)
    requires c in BuildChain(threshold, opts)
    ensures c in CanonicalChain(threshold, opts)
  {
    var a := BuildChain(threshold, opts);
    var i :| 0 <= i < |a| && a[i] == c;
    if i > 0 {
      var hasTile := exists k :: 0 <= k < |opts| && opts[k].RemoveTiles?;
      var hasReads := exists k :: 0 <= k < |opts| && opts[k].RemoveReads?;
      var b := [Length(threshold)] + (if hasTile then [Tile(LastTiles(opts))] else []) + (if hasReads then [ReadId(LastKeys(opts))] else []);
      assert b == CanonicalChain(threshold, opts);
      if opts[i - 1].RemoveTiles? {
        assert hasTile;
        assert c == b[1];
      } else {
        assert hasReads;
        assert c == b[|b| - 1];
      }
    } else {
      assert c == CanonicalChain(threshold, opts)[0];
    }
  }

  lemma CanonicalInBuilt(threshold: nat, opts: seq<ChainOption>, c: Criterion)
    requires c in CanonicalChain(threshold, opts)
    ensures c in BuildChain(threshold, opts)
  {
    var a := BuildChain(threshold, opts);
    var hasTile := exists k :: 0 <= k < |opts| && opts[k].RemoveTiles?;
    var hasReads := exists k :: 0 <= k < |opts| && opts[k].RemoveReads?;
    var t := if hasTile then [Tile(LastTiles(opts))] else [];
    var r := if hasReads then [ReadId(LastKeys(opts))] else [];
    assert CanonicalChain(threshold, opts) == [Length(threshold)] + t + r;
    if c == Length(threshold) {
      assert a[0] == c;
    } else if c in t {
      var k :| 0 <= k < |opts| && opts[k].RemoveTiles?;
      assert a[k + 1] == c;
    } else {
      assert c in r;
      var k :| 0 <= k < |opts| && opts[k].RemoveReads?;
      assert a[k + 1] == c;
    }
  }

  /**
   * A header with no space keeps its newline in the lookup key, so the
   * exclusion line naming that read ("id\n", key "@id") does not remove it.
   */
  lemma SpacelessHeaderMissesItsLine(id: CString)
    requires id != [] && ' ' !in id && '\n' !in id
    ensures ExclusionKeys([id + "\n"]) == {"@" + id}
    ensures IdAccepts(ExclusionKeys([id + "\n"]), "@" + id + "\n") == Some(true)
  {
    LineKeyOfListedId(id, "");
    var header := "@" + id + "\n";
    assert ' ' !in header by {
      assert forall i :: 0 <= i < |header| ==> header[i] != ' ';
    }
    HeaderKeyWithoutSpace(header);
    assert |header| != |"@" + id|;
    assert FileLength([id + "\n"]) == 1 by {
      assert [id + "\n"][1..] == [];
    }
  }

  /** Characters build_output_path strips: ".fastq.gz" when the path ends in 'z', else ".fastq". */
  function ExtensionLength(inputPath: string): nat
    requires inputPath != []
  {
    if inputPath[|inputPath| - 1] == 'z' then 9 else 6
  }

  /**
   * build_output_path: the input path less its extension, then the new
   * extension. None for an empty path or one shorter than the extension,
   * where the C code reads before the string or its unsigned length wraps.
   */
  function OutputPath(inputPath: string, newExtension: string): (path: Option<string>)
    ensures path.Some? <==> inputPath != [] && ExtensionLength(inputPath) <= |inputPath|
    ensures path.Some? ==> |path.value| == |inputPath| - ExtensionLength(inputPath) + |newExtension|
  {
    if inputPath == [] || |inputPath| < ExtensionLength(inputPath) then None
    else Some(inputPath[..|inputPath| - ExtensionLength(inputPath)] + newExtension)
  }

  /** "base.fastq" becomes "base" + the new extension. */
  lemma OutputPathOfFastq(base: string, newExtension: string)
    ensures OutputPath(base + ".fastq", newExtension) == Some(base + newExtension)
  {
    var p := base + ".fastq";
    assert p[|p| - 1] == 'q';
    assert p[..|p| - 6] == base;
  }

  /** "base.fastq.gz" becomes "base" + the new extension. */
  lemma OutputPathOfGzip(base: string, newExtension: string)
    ensures OutputPath(base + ".fastq.gz", newExtension) == Some(base + newExtension)
  {
    var p := base + ".fastq.gz";
    assert p[|p| - 1] == 'z';
    assert p[..|p| - 9] == base;
  }

  /** Any path ending in 'z' loses nine characters, whatever they are; any other path six. */
  lemma OutputPathStrips(inputPath: string, newExtension: string)
    requires inputPath != []
    ensures inputPath[|inputPath| - 1] == 'z' && 9 <= |inputPath| ==>
      OutputPath(inputPath, newExtension) == Some(inputPath[..|inputPath| - 9] + newExtension)
    ensures inputPath[|inputPath| - 1] != 'z' && 6 <= |inputPath| ==>
      OutputPath(inputPath, newExtension) == Some(inputPath[..|inputPath| - 6] + newExtension)
  {
  }

  /** The derived path keeps everything of the input before the stripped extension. */
  lemma OutputPathKeepsBase(inputPath: string, newExtension: string)
    requires OutputPath(inputPath, newExtension).Some?
    ensures OutputPath(inputPath, newExtension).value[..|inputPath| - ExtensionLength(inputPath)] ==
      inputPath[..|inputPath| - ExtensionLength(inputPath)]
    ensures OutputPath(inputPath, newExtension).value[|inputPath| - ExtensionLength(inputPath)..] == newExtension
  {
  }
}
