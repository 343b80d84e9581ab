/**
 * Building the exclusion data before the run: the NULL-terminated tile
 * array from the --remove_tiles argument (build_remove_tiles) and the key
 * set from the lines of the --remove_reads file (build_remove_reads).
 */
module Exclusion {
  import opened Wrappers
  import opened StrTok
  import opened Fastq

  /** The tiles listed in a --remove_tiles argument: its non-empty ','-separated fields. */
  function TileList(removeTiles: string): seq<string>
  {
    Tokens(removeTiles, ',')
  }

  /** The strings of a NULL-terminated array: every cell before the first None. */
  function Listed(cells: seq<Option<string>>): seq<string>
  {
    if cells == [] || cells[0].None? then [] else [cells[0].value] + Listed(cells[1..])
  }

  /** Counts the commas, allocates ntiles + 1 cells and fills them with strtok, closing with NULL. */
  method BuildRemoveTiles(removeTiles: string) returns (tilesToRemove: array<Option<string>>)
    ensures fresh(tilesToRemove)
    ensures tilesToRemove.Length == Count(removeTiles, ',') + 2
    ensures |TileList(removeTiles)| < tilesToRemove.Length
    ensures forall i :: 0 <= i < |TileList(removeTiles)| ==> tilesToRemove[i] == Some(TileList(removeTiles)[i])
    ensures tilesToRemove[|TileList(removeTiles)|] == None
    ensures Listed(tilesToRemove[..]) == TileList(removeTiles)
  {
    var rmTiles := removeTiles;  // strtok works on this copy
    var ntiles := CountTiles(rmTiles);
    TokenCountBound(rmTiles, ',');
    tilesToRemove := new Option<string>[ntiles + 1](_ => None);
    FillTiles(tilesToRemove, rmTiles);
    ListedPrefix(tilesToRemove[..], Tokens(rmTiles, ','));
  }

  /** The strtok loop: stores each ','-token of s in turn, then the NULL terminator. */
  method FillTiles(tilesToRemove: array<Option<string>>, s: string)
    requires |Tokens(s, ',')| < tilesToRemove.Length
    modifies tilesToRemove
    ensures Filled(tilesToRemove[..], Tokens(s, ','), |Tokens(s, ',')| + 1)
  {
    ghost var ts := Tokens(s, ',');
    var i := 0;
    StrtokStep(ts, 0, s, ',');
    var call := NextToken(s, ',');
    var field, rest := call.0, call.1;
    while field.Some?
      invariant 0 <= i <= |ts|
      invariant field == TokenAt(ts, i)
      invariant Tokens(rest, ',') == Drop(ts, i + 1)
      invariant Filled(tilesToRemove[..], ts, i)
      decreases |ts| - i
    {
      FilledStep(tilesToRemove[..], ts, i, field);
      tilesToRemove[i] := field;
      StrtokStep(ts, i + 1, rest, ',');
      call := NextToken(rest, ',');
      field, rest := call.0, call.1;
      i := i + 1;
    }
    FilledStep(tilesToRemove[..], ts, i, None);
    tilesToRemove[i] := None;
  }

  /** The first n cells hold what the first n strtok calls return (the tokens, then NULL). */
  ghost predicate Filled(cells: seq<Option<string>>, ts: seq<string>, n: nat)
  {
    n <= |cells| && forall k :: 0 <= k < n ==> cells[k] == TokenAt(ts, k)
  }

  lemma FilledStep(cells: seq<Option<string>>, ts: seq<string>, n: nat, v: Option<string>)
    requires Filled(cells, ts, n) && n < |cells| && v == TokenAt(ts, n)
    ensures Filled(cells[n := v], ts, n + 1)
  {
  }

  /** The comma-counting loop: one more slot than there are commas. */
  method CountTiles(s: string) returns (ntiles: nat)
    ensures ntiles == Count(s, ',') + 1
  {
    ntiles := 1;
    var j := 0;
    while j < |s|
      invariant 0 <= j <= |s|
      invariant ntiles == 1 + Count(s[..j], ',')
    {
      CountSnoc(s[..j], s[j], ',');
      assert s[..j + 1] == s[..j] + [s[j]];
      if s[j] == ',' {
        ntiles := ntiles + 1;
      }
      j := j + 1;
    }
    assert s[..j] == s;
  }

  lemma {:induction false} CountSnoc(s: string, c: char, d: char)
    ensures Count(s + [c], d) == Count(s, d) + (if c == d then 1 else 0)
    decreases |s|
  {
    if s != [] {
      assert (s + [c])[1..] == s[1..] + [c];
      CountSnoc(s[1..], c, d);
    }
  }

  /** An array holding the strings of `ts` then NULL lists exactly `ts`. */
  lemma {:induction false} ListedPrefix(cells: seq<Option<string>>, ts: seq<string>)
    requires Filled(cells, ts, |ts| + 1)
    ensures forall i :: 0 <= i < |ts| ==> cells[i] == Some(ts[i])
    ensures cells[|ts|] == None
    ensures Listed(cells) == ts
    decreases |ts|
  {
    assert cells[0] == TokenAt(ts, 0);
    if ts != [] {
      assert forall k :: 0 <= k < |ts| ==> cells[1..][k] == cells[k + 1] && TokenAt(ts[1..], k) == TokenAt(ts, k + 1);
      ListedPrefix(cells[1..], ts[1..]);
    }
  }

  /** The tile list keeps the argument's non-empty fields in order; empty fields collapse. */
  lemma TileListIsNonEmptyFields(removeTiles: string)
    ensures TileList(removeTiles) == NonEmpty(Split(removeTiles, ','))
    ensures |TileList(removeTiles)| <= Count(removeTiles, ',') + 1
  {
    TokensAreNonEmptyFields(removeTiles, ',');
    TokenCountBound(removeTiles, ',');
  }

  /** The key a line of the --remove_reads file contributes: "@" and its first word (or the line up to its newline when it has no space). */
  function LineKey(line: string): Option<string>
  {
    var readId := if ' ' in line then NextToken(line, ' ').0 else NextToken(line, '\n').0;
    match readId
    case None => None
    case Some(id) => Some("@" + id)
  }

  /** Number of lines readln delivers before it reports the end of the file (an empty line). */
  function FileLength(lines: seq<CString>): (n: nat)
    ensures n <= |lines|
    ensures forall i :: 0 <= i < n ==> lines[i] != ""
    ensures n < |lines| ==> lines[n] == ""
  {
    if lines == [] || lines[0] == "" then 0 else 1 + FileLength(lines[1..])
  }

  /** The key set build_remove_reads builds from a file's lines. */
  function ExclusionKeys(lines: seq<CString>): set<string>
  {
    set i | 0 <= i < FileLength(lines) && LineKey(lines[i]).Some? :: LineKey(lines[i]).value
  }

  /** Keys from the first n lines. */
  ghost predicate KeysOfLines(keys: set<string>, lines: seq<CString>, n: nat)
    requires n <= |lines|
  {
    forall k :: k in keys <==> exists i :: 0 <= i < n && LineKey(lines[i]) == Some(k)
  }

  lemma ExclusionKeysOfLines(keys: set<string>, lines: seq<CString>)
    requires KeysOfLines(keys, lines, FileLength(lines))
    ensures keys == ExclusionKeys(lines)
  {
    forall k ensures k in keys <==> k in ExclusionKeys(lines) {
      if k in keys {
        var i :| 0 <= i < FileLength(lines) && LineKey(lines[i]) == Some(k);
      }
    }
  }

  lemma KeysOfLinesStep(keys: set<string>, lines: seq<CString>, i: nat)
    requires i < |lines| && KeysOfLines(keys, lines, i)
    ensures KeysOfLines(keys + (if LineKey(lines[i]).Some? then {LineKey(lines[i]).value} else {}), lines, i + 1)
  {
    var next := keys + (if LineKey(lines[i]).Some? then {LineKey(lines[i]).value} else {});
    forall k ensures k in next <==> exists j :: 0 <= j < i + 1 && LineKey(lines[j]) == Some(k) {
      if k in next && k !in keys {
        assert LineKey(lines[i]) == Some(k);
      }
      if exists j :: 0 <= j < i + 1 && LineKey(lines[j]) == Some(k) {
        var j :| 0 <= j < i + 1 && LineKey(lines[j]) == Some(k);
        if j < i {
          assert k in keys;
        }
      }
    }
  }

  /** build_remove_reads: reads lines until the end and adds the key of each non-blank one. */
  method BuildRemoveReads(lines: seq<CString>) returns (readsToRemove: set<string>)
    ensures forall k :: k in readsToRemove <==> exists i :: 0 <= i < FileLength(lines) && LineKey(lines[i]) == Some(k)
    ensures readsToRemove == ExclusionKeys(lines)
  {
    readsToRemove := {};
    var i := 0;
    while true
      invariant 0 <= i <= FileLength(lines)
      invariant KeysOfLines(readsToRemove, lines, i)
      decreases |lines| - i
    {
      var line := Line(lines, i);
      if line == "" {
        assert i == FileLength(lines);
        ExclusionKeysOfLines(readsToRemove, lines);
        return;
      }
      var readId := LineKey(line);
      KeysOfLinesStep(readsToRemove, lines, i);
      if readId.Some? {
        readsToRemove := readsToRemove + {readId.value};
      }
      i := i + 1;
    }
  }

  /** Every exclusion key is "@" followed by a non-empty read id. */
  lemma LineKeyShape(line: string)
    ensures LineKey(line).Some? ==> |LineKey(line).value| >= 2 && LineKey(line).value[0] == '@'
  {
  }

  /** A blank line contributes nothing. */
  lemma BlankLineHasNoKey()
    ensures LineKey("\n") == None
  {
    assert SkipDelims("\n", '\n') == [];
  }

  /** A listed line "id\n" or "id rest" contributes "@id". */
  lemma LineKeyOfListedId(id: string, rest: string)
    requires id != [] && ' ' !in id && '\n' !in id
    ensures LineKey(id + "\n") == Some("@" + id)
    ensures LineKey(id + " " + rest) == Some("@" + id)
  {
    assert ' ' !in id + "\n" by {
      assert forall i :: 0 <= i < |id + "\n"| ==> (id + "\n")[i] != ' ';
    }
    FirstTokenOfField(id, '\n', []);
    assert id + "\n" == id + ['\n'] + [];
    assert (id + " " + rest)[|id|] == ' ';
    FirstTokenOfField(id, ' ', rest);
  }
}
