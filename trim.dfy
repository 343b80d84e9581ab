/**
 * The trim transform (_trim_include) and the include functions that
 * write a kept record: std_include, or trim_include_r1/_r2 when a trim
 * length is configured. C strings live in char arrays closed by a NUL.
 */
module Trim {
  import opened Wrappers
  import opened Fastq

  /** strlen: the index of the first NUL in a buffer. */
  function StrLen(buf: seq<char>): (n: nat)
    requires '\0' in buf
    ensures n < |buf| && buf[n] == '\0' && '\0' !in buf[..n]
  {
    if buf[0] == '\0' then 0
    else
      assert '\0' in buf[1..];
      var m := StrLen(buf[1..]);
      assert buf[..m + 1] == [buf[0]] + buf[1..][..m];
      1 + m
  }

  /** The C string a buffer holds. */
  function CStr(buf: seq<char>): CString
    requires '\0' in buf
  {
    buf[..StrLen(buf)]
  }

  /** The first NUL is the only NUL before it. */
  lemma StrLenAt(buf: seq<char>, n: nat)
    requires n < |buf| && buf[n] == '\0' && '\0' !in buf[..n]
    ensures StrLen(buf) == n
  {
  }

  /** A buffer that holds `s` and then a NUL reads back as `s`, whatever follows. */
  lemma CStrOfBuffer(s: CString, buf: seq<char>)
    requires |s| < |buf| && buf[..|s|] == s && buf[|s|] == '\0'
    ensures '\0' in buf && CStr(buf) == s
  {
    StrLenAt(buf, |s|);
  }

  /** readln's block size. */
  const BlockSize: nat := 2048

  /**
   * The gzgets calls readln makes for one line: one per BlockSize - 1
   * characters, and one more that meets the end of the input when the line
   * has no closing newline.
   */
  function ReadlnCalls(line: CString): nat
  {
    (|line| + BlockSize - 2) / (BlockSize - 1) + (if line != [] && line[|line| - 1] == '\n' then 0 else 1)
  }

  /**
   * Size of the buffer readln hands a line over in: it starts from one
   * block, grows by a block per gzgets call and reallocates one cell more.
   * It always holds the line, its NUL and at least two blocks.
   */
  function ReadlnCapacity(line: CString): (capacity: nat)
    ensures capacity >= 2 * BlockSize + 1
    ensures capacity > |line| + 1
  {
    var calls := ReadlnCalls(line);
    assert calls * (BlockSize - 1) >= |line| by {
      var q, n := (|line| + BlockSize - 2) / (BlockSize - 1), |line| + BlockSize - 2;
      assert q * (BlockSize - 1) + n % (BlockSize - 1) == n;
    }
    assert calls >= 1;
    BlockSize + BlockSize * calls + 1
  }

  /** What a line becomes when '\n' and NUL are stored at offsets n and n + 1 of its buffer. */
  function CutAt(line: CString, n: nat): CString
  {
    if n <= |line| then line[..n] + "\n" else line
  }

  /** The two stores of _trim_include turn the buffer's string into CutAt of it. */
  lemma CutAtStores(buf: seq<char>, n: nat)
    requires '\0' in buf && n + 1 < |buf|
    ensures '\0' in buf[n := '\n'][n + 1 := '\0']
    ensures CStr(buf[n := '\n'][n + 1 := '\0']) == CutAt(CStr(buf), n)
  {
    var b := buf[n := '\n'][n + 1 := '\0'];
    var len := StrLen(buf);
    assert b[n + 1] == '\0';
    if n <= len {
      assert forall i :: 0 <= i < n ==> b[i] == buf[i] && buf[i] != '\0' by {
        assert forall i :: 0 <= i < n ==> buf[i] == buf[..len][i];
      }
      assert '\0' !in b[..n + 1];
      StrLenAt(b, n + 1);
      assert b[..n + 1] == buf[..len][..n] + "\n";
    } else {
      assert b[len] == '\0';
      assert b[..len] == buf[..len];
      StrLenAt(b, len);
    }
  }

  /**
   * _trim_include on the sequence and quality buffers: when the sequence
   * line is longer than trimLen + 1 (the '\n' counted), both buffers get
   * '\n' at trimLen and NUL at trimLen + 1; otherwise nothing changes.
   */
  method TrimInPlace(seqBuf: array<char>, qualBuf: array<char>, trimLen: nat)
    requires seqBuf != qualBuf
    requires '\0' in seqBuf[..] && '\0' in qualBuf[..]
    requires StrLen(seqBuf[..]) > trimLen + 1 ==> trimLen + 1 < qualBuf.Length
    modifies seqBuf, qualBuf
    ensures '\0' in seqBuf[..] && '\0' in qualBuf[..]
    ensures old(StrLen(seqBuf[..])) > trimLen + 1 ==>
      CStr(seqBuf[..]) == CutAt(old(CStr(seqBuf[..])), trimLen) &&
      CStr(qualBuf[..]) == CutAt(old(CStr(qualBuf[..])), trimLen)
    ensures old(StrLen(seqBuf[..])) <= trimLen + 1 ==>
      seqBuf[..] == old(seqBuf[..]) && qualBuf[..] == old(qualBuf[..])
  {
    if StrLen(seqBuf[..]) > trimLen + 1 {
      ghost var s0, q0 := seqBuf[..], qualBuf[..];
      CutAtStores(s0, trimLen);
      CutAtStores(q0, trimLen);
      seqBuf[trimLen] := '\n';
      seqBuf[trimLen + 1] := '\0';
      qualBuf[trimLen] := '\n';
      qualBuf[trimLen + 1] := '\0';
      assert seqBuf[..] == s0[trimLen := '\n'][trimLen + 1 := '\0'];
      assert qualBuf[..] == q0[trimLen := '\n'][trimLen + 1 := '\0'];
    }
  }

  /**
   * The record _trim_include writes when each line sits in the buffer
   * readln returned it in. None when the two stores would land past the end
   * of the quality buffer, which only a quality line far shorter than the
   * sequence line and a trim length of 2 * BlockSize or more can cause.
   */
  function TrimRead(read: Read, trimLen: nat): Option<Read>
  {
    if |read.sequence| > trimLen + 1 then
      if trimLen + 1 < ReadlnCapacity(read.qual) then
        Some(read.(sequence := CutAt(read.sequence, trimLen), qual := CutAt(read.qual, trimLen)))
      else None
    else Some(read)
  }

  /**
   * A longer sequence line is cut to trimLen characters and its '\n', and
   * the quality line gets the same two stores; a read no longer than that is
   * written as it is; the header and strand lines never change.
   */
  lemma TrimReadSpec(read: Read, trimLen: nat)
    ensures var r := TrimRead(read, trimLen);
      && (r.Some? <==> (|read.sequence| <= trimLen + 1 || trimLen + 1 < ReadlnCapacity(read.qual)))
      && (|read.sequence| <= trimLen + 1 ==> r == Some(read))
      && (r.Some? ==> r.value.header == read.header && r.value.strand == read.strand)
      && (r.Some? && |read.sequence| > trimLen + 1 ==>
            |r.value.sequence| == trimLen + 1 &&
            r.value.sequence[..trimLen] == read.sequence[..trimLen] && r.value.sequence[trimLen] == '\n' &&
            (trimLen <= |read.qual| ==>
              |r.value.qual| == trimLen + 1 && r.value.qual[..trimLen] == read.qual[..trimLen] && r.value.qual[trimLen] == '\n') &&
            (trimLen > |read.qual| ==> r.value.qual == read.qual))
  {
  }

  /** A trim length below two blocks never stores past a buffer. */
  lemma ShortTrimIsDefined(read: Read, trimLen: nat)
    requires trimLen < 2 * BlockSize
    ensures TrimRead(read, trimLen).Some?
  {
    var _ := ReadlnCapacity(read.qual);
  }

  /** Trimming a trimmed record changes nothing. */
  lemma TrimIdempotent(read: Read, trimLen: nat)
    requires TrimRead(read, trimLen).Some?
    ensures TrimRead(TrimRead(read, trimLen).value, trimLen) == TrimRead(read, trimLen)
  {
  }

  /** What include_func_r1/_r2 write for a kept record: std_include, or the trimmed record when a trim length is set. */
  function Include(trim: Option<nat>, read: Read): Option<string>
  {
    match trim
    case None => Some(Record(read))
    case Some(n) =>
      match TrimRead(read, n)
      case None => None
      case Some(t) => Some(Record(t))
  }

  /** The buffer readln returns a line in: the line, then NULs up to its capacity. */
  method ToBuffer(s: CString) returns (buf: array<char>)
    ensures fresh(buf) && buf.Length == ReadlnCapacity(s)
    ensures buf[..|s|] == s && buf[|s|] == '\0'
  {
    buf := new char[ReadlnCapacity(s)](i => if 0 <= i < |s| then s[i] else '\0');
  }

  /** include_func on a kept read: std_include, or trim_include with the read's own buffers trimmed in place. */
  method IncludeRead(read: Read, trim: Option<nat>) returns (written: Option<string>)
    ensures written == Include(trim, read)
  {
    if trim.None? {
      return Some(Record(read));
    }
    var trimLen := trim.value;
    if |read.sequence| > trimLen + 1 && ReadlnCapacity(read.qual) <= trimLen + 1 {
      return None;  // the stores would land past the quality buffer
    }
    var seqBuf := ToBuffer(read.sequence);
    var qualBuf := ToBuffer(read.qual);
    CStrOfBuffer(read.sequence, seqBuf[..]);
    CStrOfBuffer(read.qual, qualBuf[..]);
    TrimInPlace(seqBuf, qualBuf, trimLen);
    var trimmed := read.(sequence := CStr(seqBuf[..]), qual := CStr(qualBuf[..]));
    return Some(Record(trimmed));
  }
}
