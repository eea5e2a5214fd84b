/**
 The build marker of a Windows executable, found by scanning the file in chunks with a 96-byte tail
 carried over (`_binary_marker` of windows_release_bundle.py), compared with one search over the
 whole file (`extract_baked_sha` of check_exe_freshness.py).
 */
module BinaryMarker {
  import opened Numbers
  import opened Wrappers

  type Byte = b: int | 0 <= b < 256

  /** What a read returns before the end of the file. */
  type Chunk = c: seq<Byte> | c != [] witness [0]

  // The bytes of CORTEX_BUILD_SHA: and of unknown
  const LABEL: seq<Byte> := [67, 79, 82, 84, 69, 88, 95, 66, 85, 73, 76, 68, 95, 83, 72, 65, 58]
  const UNKNOWN: seq<Byte> := [117, 110, 107, 110, 111, 119, 110]
  const TAIL := 96
  const READ_CHUNK_BYTES := 1048576

  // ----- the pattern LABEL([0-9a-fA-F]{7,40}|unknown)

  predicate IsHex(b: Byte) { 48 <= b <= 57 || 65 <= b <= 70 || 97 <= b <= 102 }

  /** How many hexadecimal digits stand at i, at most cap. */
  function HexRun(s: seq<Byte>, i: nat, cap: nat): nat
    decreases |s| - i
  {
    if cap == 0 || i >= |s| || !IsHex(s[i]) then 0 else 1 + HexRun(s, i + 1, cap - 1)
  }

  function LabelByte(k: nat): Byte
    requires k < 17
  {
    LABEL[k]
  }

  function UnknownByte(k: nat): Byte
    requires k < 7
  {
    UNKNOWN[k]
  }

  predicate LabelAt(s: seq<Byte>, q: nat)
    requires q + 17 <= |s|
  {
    forall k: nat {:trigger LabelByte(k)} | k < 17 :: s[q + k] == LabelByte(k)
  }

  predicate UnknownAt(s: seq<Byte>, q: nat)
    requires q + 7 <= |s|
  {
    forall k: nat {:trigger UnknownByte(k)} | k < 7 :: s[q + k] == UnknownByte(k)
  }

  predicate MatchesAt(s: seq<Byte>, q: nat) {
    q + 24 <= |s| && LabelAt(s, q) && (HexRun(s, q + 17, 40) >= 7 || UnknownAt(s, q + 17))
  }

  /** The captured group: the digits are taken greedily, up to forty. */
  function GroupLength(s: seq<Byte>, q: nat): nat {
    var run := HexRun(s, q + 17, 40);
    if run >= 7 then run else 7
  }

  function Group(s: seq<Byte>, q: nat): (g: seq<Byte>)
    requires MatchesAt(s, q)
    ensures 7 <= |g| <= 40
  {
    RunFits(s, q + 17, 40);
    s[q + 17..q + 17 + GroupLength(s, q)]
  }

  lemma {:induction false} RunFits(s: seq<Byte>, i: nat, cap: nat)
    requires i <= |s|
    ensures i + HexRun(s, i, cap) <= |s| && HexRun(s, i, cap) <= cap
    decreases cap
  {
    if cap > 0 && i < |s| { RunFits(s, i + 1, cap - 1); }
  }

  ghost predicate IsFirst(s: seq<Byte>, q: nat) {
    MatchesAt(s, q) && forall p: nat | p < q :: !MatchesAt(s, p)
  }

  ghost predicate NoMatch(s: seq<Byte>) {
    forall p: nat :: !MatchesAt(s, p)
  }

  /** The leftmost match at or after i. */
  function Search(s: seq<Byte>, i: nat): (r: Option<nat>)
    requires forall p: nat | p < i :: !MatchesAt(s, p)
    ensures r.Some? ==> IsFirst(s, r.value)
    ensures r.None? <==> NoMatch(s)
    decreases |s| - i
  {
    if i > |s| then None
    else if MatchesAt(s, i) then Some(i)
    else Search(s, i + 1)
  }

  function FoldByte(b: Byte): Byte { if 65 <= b <= 90 then b + 32 else b }

  function Fold(g: seq<Byte>): (r: seq<Byte>)
    ensures |r| == |g| && forall k | 0 <= k < |g| :: r[k] == FoldByte(g[k])
  {
    seq(|g|, k requires 0 <= k < |g| => FoldByte(g[k]))
  }

  /** `extract_baked_sha`: the search over all of the bytes at once, which does not fold. */
  function WholeFile(s: seq<Byte>): (m: Option<seq<Byte>>)
    ensures m.None? <==> NoMatch(s)
    ensures m.Some? ==> exists q: nat :: IsFirst(s, q) && m.value == Group(s, q)
  {
    match Search(s, 0)
    case None => None
    case Some(q) => Some(Group(s, q))
  }

  // ----- the language of the pattern

  /** The bytes of an ASCII text. */
  ghost function Ascii(t: string): (s: seq<Byte>)
    requires forall k | 0 <= k < |t| :: t[k] < 128 as char
    ensures |s| == |t| && forall k | 0 <= k < |t| :: s[k] == t[k] as int
  {
    seq(|t|, k requires 0 <= k < |t| => t[k] as int)
  }

  lemma LabelIs()
    ensures LABEL == Ascii("CORTEX_BUILD_SHA:") && UNKNOWN == Ascii("unknown")
  {
  }

  lemma HexIs(b: Byte)
    ensures IsHex(b) <==> b in Ascii("0123456789abcdefABCDEF")
  {
    var digits := Ascii("0123456789abcdefABCDEF");
    if IsHex(b) {
      var k := if b <= 57 then b - 48 else if b <= 70 then b - 49 else b - 87;
      DigitCode(k);
      assert digits[k] == b;
    }
    if b in digits {
      var k :| 0 <= k < |digits| && digits[k] == b;
      DigitCode(k);
    }
  }

  /** The codes of the digits, in the order 0 to 9, a to f, A to F. */
  lemma DigitCode(k: nat)
    requires k < 22
    ensures "0123456789abcdefABCDEF"[k] as int == k + if k < 10 then 48 else if k < 16 then 87 else 49
  {
  }

  ghost predicate AllHex(s: seq<Byte>) { forall k | 0 <= k < |s| :: s[k] in Ascii("0123456789abcdefABCDEF") }

  /** How far the digits reach: to the cap, to the end of the bytes or to a byte that is none. */
  lemma {:induction false} RunIs(s: seq<Byte>, i: nat, cap: nat)
    requires i <= |s|
    ensures var n := HexRun(s, i, cap);
            && n <= cap && i + n <= |s| && AllHex(s[i..i + n])
            && (n == cap || i + n == |s| || s[i + n] !in Ascii("0123456789abcdefABCDEF"))
    decreases cap
  {
    if i < |s| { HexIs(s[i]); }
    if cap > 0 && i < |s| && IsHex(s[i]) {
      RunIs(s, i + 1, cap - 1);
      var n := HexRun(s, i + 1, cap - 1);
      assert s[i..i + 1 + n] == [s[i]] + s[i + 1..i + 1 + n];
    }
  }

  lemma SlicesAt(s: seq<Byte>, q: nat)
    requires q + 24 <= |s|
    ensures LabelAt(s, q) <==> s[q..q + 17] == Ascii("CORTEX_BUILD_SHA:")
    ensures UnknownAt(s, q + 17) <==> s[q + 17..q + 24] == Ascii("unknown")
  {
    LabelIs();
    var head, word := s[q..q + 17], s[q + 17..q + 24];
    assert forall k: nat | k < 17 :: head[k] == s[q + k] && LabelByte(k) == LABEL[k];
    assert forall k: nat | k < 7 :: word[k] == s[q + 17 + k] && UnknownByte(k) == UNKNOWN[k];
    assert head == LABEL <==> forall k: nat | k < 17 :: head[k] == LabelByte(k);
    assert word == UNKNOWN <==> forall k: nat | k < 7 :: word[k] == UnknownByte(k);
  }

  /** A match: the label, then seven hexadecimal digits or the word unknown. */
  lemma MatchIff(s: seq<Byte>, q: nat)
    ensures MatchesAt(s, q) <==>
            && q + 24 <= |s| && s[q..q + 17] == Ascii("CORTEX_BUILD_SHA:")
            && (AllHex(s[q + 17..q + 24]) || s[q + 17..q + 24] == Ascii("unknown"))
  {
    if q + 24 <= |s| {
      SlicesAt(s, q);
      RunIs(s, q + 17, 40);
      SevenIff(s, q + 17);
    }
  }

  lemma SevenIff(s: seq<Byte>, i: nat)
    requires i + 7 <= |s|
    ensures HexRun(s, i, 40) >= 7 <==> AllHex(s[i..i + 7])
  {
    RunIs(s, i, 40);
    var n := HexRun(s, i, 40);
    if n >= 7 {
      assert s[i..i + 7] == s[i..i + n][..7];
    } else {
      assert s[i..i + 7][n] == s[i + n];
    }
  }

  /** The captured group: the word unknown, or the longest run of up to forty digits. */
  lemma GroupIs(s: seq<Byte>, q: nat)
    requires MatchesAt(s, q)
    ensures var g := Group(s, q);
            && q + 17 + |g| <= |s| && g == s[q + 17..q + 17 + |g|]
            && (g == Ascii("unknown") ||
                (AllHex(g) && (|g| == 40 || q + 17 + |g| == |s| || !AllHex([s[q + 17 + |g|]]))))
  {
    var n, i := HexRun(s, q + 17, 40), q + 17;
    RunIs(s, i, 40);
    if n >= 7 {
      assert Group(s, q) == s[i..i + n];
      assert i + n < |s| ==> [s[i + n]][0] == s[i + n];
    } else {
      SlicesAt(s, q);
      assert Group(s, q) == s[i..i + 7];
    }
  }

  /** Folding changes the capital letters alone. */
  lemma FoldIs(g: seq<Byte>, k: nat)
    requires k < |g|
    ensures Fold(g)[k] == if Ascii("A")[0] <= g[k] <= Ascii("Z")[0] then g[k] + 32 else g[k]
  {
  }

  // ----- what a window of the file shows of its matches

  lemma {:induction false} RunInSlice(s: seq<Byte>, off: nat, n: nat, i: nat, cap: nat)
    requires off + i <= n <= |s|
    ensures HexRun(s[off..n], i, cap) == Min(HexRun(s, off + i, cap), n - off - i)
    decreases cap
  {
    if cap > 0 && off + i < n && IsHex(s[off + i]) {
      RunInSlice(s, off, n, i + 1, cap - 1);
      assert off + (i + 1) == off + i + 1;
    }
  }

  lemma MatchInSlice(s: seq<Byte>, off: nat, n: nat, i: nat)
    requires off <= n <= |s|
    ensures MatchesAt(s[off..n], i) <==> off + i + 24 <= n && MatchesAt(s, off + i)
  {
    var w, q := s[off..n], off + i;
    if q + 24 <= n {
      RunInSlice(s, off, n, i + 17, 40);
      assert off + (i + 17) == q + 17;
      assert LabelAt(w, i) <==> LabelAt(s, q);
      assert UnknownAt(w, i + 17) <==> UnknownAt(s, q + 17);
    }
  }

  lemma LengthInSlice(s: seq<Byte>, off: nat, n: nat, i: nat)
    requires off + i + 24 <= n <= |s|
    ensures GroupLength(s[off..n], i) == Min(GroupLength(s, off + i), n - off - i - 17)
  {
    RunInSlice(s, off, n, i + 17, 40);
    assert off + (i + 17) == off + i + 17;
  }

  lemma SliceOfSlice(s: seq<Byte>, off: nat, n: nat, from: nat, len: nat, longer: nat)
    requires off <= n <= |s| && from + len <= n - off && len <= longer && off + from + longer <= |s|
    ensures s[off..n][from..from + len] == s[off + from..off + from + longer][..len]
  {
    var l, r := s[off..n][from..from + len], s[off + from..off + from + longer][..len];
    assert |l| == |r| && forall k | 0 <= k < len :: l[k] == s[off + from + k] == r[k];
  }

  lemma GroupInSlice(s: seq<Byte>, off: nat, n: nat, i: nat)
    requires off <= n <= |s| && MatchesAt(s[off..n], i) && MatchesAt(s, off + i)
    ensures Group(s[off..n], i) == Group(s, off + i)[..Min(|Group(s, off + i)|, n - off - i - 17)]
  {
    var w, q := s[off..n], off + i;
    LengthInSlice(s, off, n, i);
    RunFits(s, q + 17, 40);
    SliceOfSlice(s, off, n, i + 17, GroupLength(w, i), GroupLength(s, q));
    assert off + (i + 17) == q + 17;
  }

  /** With no match in the first n bytes, a window that keeps at least the last 23 of them (or all)
      shows the leftmost match of any longer prefix at its own leftmost match. */
  lemma FirstInWindow(s: seq<Byte>, off: nat, n: nat, i: nat)
    requires off <= n <= |s| && (off == 0 || off + 23 <= n)
    requires NoMatch(s[..n]) && IsFirst(s[off..], i)
    ensures IsFirst(s, off + i)
  {
    assert s[off..] == s[off..|s|] && s[..n] == s[0..n];
    MatchInSlice(s, off, |s|, i);
    forall p: nat | p < off + i
      ensures !MatchesAt(s, p)
    {
      if p >= off {
        MatchInSlice(s, off, |s|, p - off);
      } else {
        MatchInSlice(s, 0, n, p);
      }
    }
  }

  lemma NoneInWindow(s: seq<Byte>, off: nat, n: nat)
    requires off <= n <= |s| && (off == 0 || off + 23 <= n)
    requires NoMatch(s[..n]) && NoMatch(s[off..])
    ensures NoMatch(s)
  {
    assert s[off..] == s[off..|s|] && s[..n] == s[0..n];
    forall p: nat
      ensures !MatchesAt(s, p)
    {
      if p >= off {
        MatchInSlice(s, off, |s|, p - off);
      } else {
        MatchInSlice(s, 0, n, p);
      }
    }
  }

  // ----- the scan

  /** The bytes read by the first reads. */
  function File(chunks: seq<Chunk>): seq<Byte> {
    if chunks == [] then [] else File(chunks[..|chunks| - 1]) + chunks[|chunks| - 1]
  }

  lemma {:induction false} FilePrefix(chunks: seq<Chunk>, k: nat)
    requires k <= |chunks|
    ensures File(chunks[..k]) <= File(chunks)
    decreases |chunks|
  {
    if k == |chunks| {
      assert chunks[..k] == chunks;
    } else {
      FilePrefix(chunks[..|chunks| - 1], k);
      assert chunks[..|chunks| - 1][..k] == chunks[..k];
    }
  }

  lemma FileGrows(chunks: seq<Chunk>, k: nat)
    requires k < |chunks|
    ensures File(chunks[..k + 1]) == File(chunks[..k]) + chunks[k]
  {
    assert chunks[..k + 1][..k] == chunks[..k];
  }

  function LastBytes(s: seq<Byte>): seq<Byte> {
    if |s| <= TAIL then s else s[|s| - TAIL..]
  }

  /** The k-th read is the first to complete a match, the one at position q of the file. */
  ghost predicate FoundAt(chunks: seq<Chunk>, k: nat, q: nat) {
    k < |chunks| && NoMatch(File(chunks[..k])) && IsFirst(File(chunks[..k + 1]), q)
  }

  lemma GroupInWindow(s: seq<Byte>, off: nat, i: nat)
    requires off <= |s| && MatchesAt(s[off..], i) && MatchesAt(s, off + i)
    ensures Group(s[off..], i) == Group(s, off + i)
  {
    assert s[off..] == s[off..|s|];
    GroupInSlice(s, off, |s|, i);
    RunFits(s, off + i + 17, 40);
    var whole := Group(s, off + i);
    assert whole[..|whole|] == whole;
  }

  lemma WindowShape(seen: seq<Byte>, chunk: seq<Byte>) returns (off: nat)
    ensures off == |seen| - |LastBytes(seen)| && (off == 0 || off + 23 <= |seen|)
    ensures (seen + chunk)[..|seen|] == seen
    ensures (seen + chunk)[off..] == LastBytes(seen) + chunk
  {
    off := |seen| - |LastBytes(seen)|;
  }

  /** What the search of a window finds holds of all that has been read. */
  ghost predicate Decides(now: seq<Byte>, window: seq<Byte>, off: nat) {
    match Search(window, 0)
    case None => NoMatch(now)
    case Some(v) => IsFirst(now, off + v) && Group(window, v) == Group(now, off + v)
  }

  lemma SuffixDecides(now: seq<Byte>, off: nat, n: nat)
    requires off <= n <= |now| && (off == 0 || off + 23 <= n) && NoMatch(now[..n])
    ensures Decides(now, now[off..], off)
  {
    var found := Search(now[off..], 0);
    if found.Some? {
      FirstInWindow(now, off, n, found.value);
      GroupInWindow(now, off, found.value);
    } else {
      NoneInWindow(now, off, n);
    }
  }

  /** One turn of the loop. */
  lemma WindowDecides(seen: seq<Byte>, chunk: seq<Byte>)
    requires NoMatch(seen)
    ensures Decides(seen + chunk, LastBytes(seen) + chunk, |seen| - |LastBytes(seen)|)
  {
    var off := WindowShape(seen, chunk);
    SuffixDecides(seen + chunk, off, |seen|);
  }

  lemma TailKept(seen: seq<Byte>, chunk: seq<Byte>)
    ensures LastBytes(LastBytes(seen) + chunk) == LastBytes(seen + chunk)
  {
  }

  lemma FoundUnique(chunks: seq<Chunk>, k: nat, q: nat, k': nat, q': nat)
    requires FoundAt(chunks, k, q) && FoundAt(chunks, k', q')
    ensures k == k' && q == q'
  {
    if k < k' {
      EarlierMatchStays(chunks, k, q, k');
    } else if k' < k {
      EarlierMatchStays(chunks, k', q', k);
    } else {
      FirstUnique(File(chunks[..k + 1]), q, q');
    }
  }

  lemma EarlierMatchStays(chunks: seq<Chunk>, k: nat, q: nat, later: nat)
    requires k < later <= |chunks| && MatchesAt(File(chunks[..k + 1]), q)
    ensures MatchesAt(File(chunks[..later]), q)
  {
    var whole := chunks[..later];
    assert whole[..k + 1] == chunks[..k + 1];
    FilePrefix(whole, k + 1);
    var part := File(chunks[..k + 1]);
    assert part == File(whole)[0..|part|];
    MatchInSlice(File(whole), 0, |part|, q);
  }

  method Scan(chunks: seq<Chunk>) returns (marker: Option<seq<Byte>>, ghost k: nat, ghost q: nat)
    ensures marker.None? ==> NoMatch(File(chunks))
    ensures marker.Some? ==> FoundAt(chunks, k, q) && marker.value == Fold(Group(File(chunks[..k + 1]), q))
  {
    var tail: seq<Byte> := [];
    k, q := 0, 0;
    ghost var seen: seq<Byte> := [];
    for i := 0 to |chunks|
      invariant seen == File(chunks[..i]) && tail == LastBytes(seen) && NoMatch(seen)
    {
      var window := tail + chunks[i];
      FileGrows(chunks, i);
      WindowDecides(seen, chunks[i]);
      var found := Search(window, 0);
      if found.Some? {
        k, q := i, |seen| - |tail| + found.value;
        marker := Some(Fold(Group(window, found.value)));
        return;
      }
      TailKept(seen, chunks[i]);
      tail := LastBytes(window);
      seen := seen + chunks[i];
    }
    assert chunks[..|chunks|] == chunks;
    marker := None;
  }

  /** The match of a prefix is the match of the file, its group cut where the prefix ends. */
  lemma FirstOfPrefix(file: seq<Byte>, n: nat, q: nat)
    requires n <= |file| && IsFirst(file[..n], q)
    ensures IsFirst(file, q)
    ensures Group(file[..n], q) == Group(file, q)[..Min(|Group(file, q)|, n - q - 17)]
  {
    var part := file[0..n];
    assert file[..n] == part;
    MatchInSlice(file, 0, n, q);
    GroupInSlice(file, 0, n, q);
    forall p: nat | p < q
      ensures !MatchesAt(file, p)
    {
      MatchInSlice(file, 0, n, p);
      assert !MatchesAt(part, p);
    }
  }

  lemma FirstUnique(s: seq<Byte>, p: nat, q: nat)
    requires IsFirst(s, p) && IsFirst(s, q)
    ensures p == q
  {
  }

  lemma WholeFileFirst(file: seq<Byte>, q: nat)
    requires IsFirst(file, q)
    ensures WholeFile(file) == Some(Group(file, q))
  {
    var found := Search(file, 0);
    assert found.Some?;
    FirstUnique(file, found.value, q);
  }

  /** What the first reads show of a marker, when they are the first to complete one. */
  ghost function Shown(chunks: seq<Chunk>, k: nat, q: nat): int
    requires k < |chunks|
  {
    |File(chunks[..k + 1])| - q - 17
  }

  lemma FoundMeans(chunks: seq<Chunk>, k: nat, q: nat)
    requires FoundAt(chunks, k, q)
    ensures WholeFile(File(chunks)).Some? && 7 <= |WholeFile(File(chunks)).value| <= 40
    ensures var whole := WholeFile(File(chunks)).value;
            Shown(chunks, k, q) >= 7
            && Group(File(chunks[..k + 1]), q) == whole[..Min(|whole|, Shown(chunks, k, q))]
  {
    var file, part := File(chunks), File(chunks[..k + 1]);
    FilePrefix(chunks, k + 1);
    assert part == file[..|part|];
    FirstOfPrefix(file, |part|, q);
    WholeFileFirst(file, q);
  }

  /** For every way of cutting the file: the scan finds a marker exactly when the whole-file search
      does, and what it returns is what that search returns, cut at the end of the read that first
      completed the match, and case-folded. */
  method BinaryMarker(chunks: seq<Chunk>) returns (marker: Option<seq<Byte>>)
    ensures marker.None? <==> WholeFile(File(chunks)).None?
    ensures marker.Some? ==> exists k: nat, q: nat ::
              FoundAt(chunks, k, q)
              && var whole := WholeFile(File(chunks)).value;
                 marker.value == Fold(whole[..Min(|whole|, Shown(chunks, k, q))])
  {
    ghost var k: nat, q: nat;
    marker, k, q := Scan(chunks);
    if marker.Some? {
      FoundMeans(chunks, k, q);
    }
  }

  // ----- the comparison of `validate_bundle`

  /** The deciding read shows the expected SHA, up to case. */
  ghost predicate Accepted(chunks: seq<Chunk>, expected: seq<Byte>) {
    exists k: nat, q: nat :: FoundAt(chunks, k, q) && Fold(Group(File(chunks[..k + 1]), q)) == expected
  }

  method AcceptsSha(chunks: seq<Chunk>, expected: seq<Byte>) returns (accepted: bool)
    ensures accepted <==> Accepted(chunks, expected)
  {
    var marker := BinaryMarker(chunks);
    accepted := marker == Some(expected);
    if marker.Some? {
      ghost var whole := WholeFile(File(chunks)).value;
      ghost var k: nat, q: nat :| FoundAt(chunks, k, q)
        && marker.value == Fold(whole[..Min(|whole|, Shown(chunks, k, q))]);
      FoundMeans(chunks, k, q);
      OnlyOneDecides(chunks, k, q, expected);
    } else {
      NothingDecides(chunks, expected);
    }
  }

  lemma OnlyOneDecides(chunks: seq<Chunk>, k: nat, q: nat, expected: seq<Byte>)
    requires FoundAt(chunks, k, q)
    ensures Accepted(chunks, expected) <==> Fold(Group(File(chunks[..k + 1]), q)) == expected
  {
    if Accepted(chunks, expected) {
      var k': nat, q': nat :| FoundAt(chunks, k', q') && Fold(Group(File(chunks[..k' + 1]), q')) == expected;
      FoundUnique(chunks, k, q, k', q');
    }
  }

  lemma NothingDecides(chunks: seq<Chunk>, expected: seq<Byte>)
    requires NoMatch(File(chunks))
    ensures !Accepted(chunks, expected)
  {
    forall k: nat, q: nat
      ensures !FoundAt(chunks, k, q)
    {
      if FoundAt(chunks, k, q) { FoundMeans(chunks, k, q); }
    }
  }

  /** Accepting a 40-character SHA means that the whole-file search yields it up to case, and yields
      the very SHA if and only if the marker holds no upper-case digit. */
  lemma AcceptedMeans(chunks: seq<Chunk>, expected: seq<Byte>)
    requires |expected| == 40 && Accepted(chunks, expected)
    ensures WholeFile(File(chunks)).Some?
    ensures var raw := WholeFile(File(chunks)).value;
            Fold(raw) == expected && (WholeFile(File(chunks)) == Some(expected) <==> Fold(raw) == raw)
  {
    var k: nat, q: nat :| FoundAt(chunks, k, q) && Fold(Group(File(chunks[..k + 1]), q)) == expected;
    FoundMeans(chunks, k, q);
    var raw := WholeFile(File(chunks)).value;
    assert raw[..|raw|] == raw;
  }

  /** A file whose marker is the expected SHA up to case is refused exactly when the read that first
      completed seven digits ended inside the SHA. */
  lemma AcceptedIffShown(chunks: seq<Chunk>, expected: seq<Byte>, k: nat, q: nat)
    requires |expected| == 40 && FoundAt(chunks, k, q)
    requires WholeFile(File(chunks)).Some? && Fold(WholeFile(File(chunks)).value) == expected
    ensures Accepted(chunks, expected) <==> Shown(chunks, k, q) >= 40
  {
    var raw, shown := WholeFile(File(chunks)).value, Shown(chunks, k, q);
    FoundMeans(chunks, k, q);
    OnlyOneDecides(chunks, k, q, expected);
    assert |raw| == |Fold(raw)| == 40;
    if shown >= 40 {
      assert raw[..40] == raw;
    } else {
      assert |Fold(raw[..shown])| == shown;
    }
  }

  /** The reads of a regular file: every one but the last is full. */
  ghost predicate FullReads(chunks: seq<Chunk>) {
    forall n | 0 <= n < |chunks| ::
      |chunks[n]| <= READ_CHUNK_BYTES && (n < |chunks| - 1 ==> |chunks[n]| == READ_CHUNK_BYTES)
  }

  lemma {:induction false} FullReadsLength(chunks: seq<Chunk>, n: nat)
    requires FullReads(chunks) && n < |chunks|
    ensures |File(chunks[..n])| == n * READ_CHUNK_BYTES
  {
    if n > 0 {
      FullReadsLength(chunks, n - 1);
      FileGrows(chunks, n - 1);
    }
  }

  /** A match of a longer file is a match of a prefix that holds its first 24 bytes. */
  lemma MatchInPrefix(file: seq<Byte>, n: nat, q: nat)
    requires n <= |file| && MatchesAt(file, q)
    ensures MatchesAt(file[..n], q) <==> q + 24 <= n
  {
    assert file[..n] == file[0..n];
    MatchInSlice(file, 0, n, q);
  }

  /** Some read decides: the first to reach the 24 bytes that the leftmost match needs. */
  lemma {:induction false} DecidingRead(chunks: seq<Chunk>, q: nat) returns (k: nat)
    requires IsFirst(File(chunks), q)
    ensures FoundAt(chunks, k, q)
    decreases |chunks|
  {
    if chunks == [] { ShortHasNoMatch([]); }
    var front := chunks[..|chunks| - 1];
    if NoMatch(File(front)) {
      k := |chunks| - 1;
      assert chunks[..k + 1] == chunks;
    } else {
      FilePrefix(chunks, |front|);
      FirstStays(File(chunks), |File(front)|, q);
      k := DecidingRead(front, q);
      assert front[..k] == chunks[..k] && front[..k + 1] == chunks[..k + 1];
    }
  }

  lemma FirstStays(file: seq<Byte>, n: nat, q: nat)
    requires n <= |file| && IsFirst(file, q) && !NoMatch(file[..n])
    ensures IsFirst(file[..n], q)
  {
    var p: nat :| MatchesAt(file[..n], p);
    assert file[..n] == file[0..n];
    MatchInSlice(file, 0, n, p);
    MatchInPrefix(file, n, q);
    forall i: nat | i < q
      ensures !MatchesAt(file[..n], i)
    {
      MatchInSlice(file, 0, n, i);
    }
  }

  /** The n-th full read ends after the seventh digit and before the last of a SHA marked at q. */
  predicate EndsInside(n: nat, q: nat) { q + 24 <= n * 1048576 < q + 57 }

  lemma DecidingReadEnds(chunks: seq<Chunk>, k: nat, q: nat)
    requires FullReads(chunks) && FoundAt(chunks, k, q) && IsFirst(File(chunks), q)
    ensures k * READ_CHUNK_BYTES < q + 24 <= |File(chunks[..k + 1])|
    ensures |File(chunks[..k + 1])| == if k + 1 < |chunks| then (k + 1) * READ_CHUNK_BYTES else |File(chunks)|
  {
    FilePrefix(chunks, k);
    FullReadsLength(chunks, k);
    assert File(chunks[..k]) == File(chunks)[..|File(chunks[..k])|];
    MatchInPrefix(File(chunks), |File(chunks[..k])|, q);
    if k + 1 < |chunks| {
      FullReadsLength(chunks, k + 1);
    } else {
      assert chunks[..k + 1] == chunks;
    }
  }

  /** Among the ends of full reads only that of the deciding one can lie in the window of the SHA. */
  lemma NoOtherBoundary(k: nat, q: nat, count: nat)
    requires k * READ_CHUNK_BYTES < q + 24 && k < count
    requires k + 1 < count ==> q + 24 <= (k + 1) * READ_CHUNK_BYTES
    ensures (forall n: nat | 0 < n < count :: !EndsInside(n, q))
       <==> k + 1 == count || q + 57 <= (k + 1) * READ_CHUNK_BYTES
  {
    if k + 1 < count && !(q + 57 <= (k + 1) * READ_CHUNK_BYTES) {
      var n: nat := k + 1;
      assert EndsInside(n, q);
    }
  }

  lemma GroupEnds(s: seq<Byte>, q: nat)
    requires MatchesAt(s, q)
    ensures q + 17 + |Group(s, q)| <= |s|
  {
    RunFits(s, q + 17, 40);
  }

  lemma AcceptedIffEnd(chunks: seq<Chunk>, expected: seq<Byte>, k: nat, q: nat)
    requires FoundAt(chunks, k, q) && IsFirst(File(chunks), q)
    requires |expected| == 40 && Fold(Group(File(chunks), q)) == expected
    ensures Accepted(chunks, expected) <==> q + 57 <= |File(chunks[..k + 1])|
    ensures q + 57 <= |File(chunks)|
  {
    WholeFileFirst(File(chunks), q);
    AcceptedIffShown(chunks, expected, k, q);
    GroupEnds(File(chunks), q);
  }

  /** Read as the script reads it, a file that carries the expected SHA up to case is accepted if and only
      if no read but the last ends after the seventh digit and before the last. */
  lemma AcceptedByPosition(chunks: seq<Chunk>, expected: seq<Byte>, q: nat)
    requires FullReads(chunks) && IsFirst(File(chunks), q)
    requires |expected| == 40 && Fold(Group(File(chunks), q)) == expected
    ensures Accepted(chunks, expected)
       <==> forall n: nat | 0 < n < |chunks| :: !EndsInside(n, q)
  {
    var k := DecidingRead(chunks, q);
    AcceptedIffEnd(chunks, expected, k, q);
    DecidingReadEnds(chunks, k, q);
    NoOtherBoundary(k, q, |chunks|);
  }

  /** The comparison of the freshness check: one SHA begins the other. */
  predicate FreshFor(head: seq<Byte>, baked: seq<Byte>) { baked <= head || head <= baked }

  /** One SHA begins the other exactly when they agree as far as both go. */
  lemma FreshIff(head: seq<Byte>, baked: seq<Byte>)
    ensures FreshFor(head, baked) <==> forall k | 0 <= k < Min(|head|, |baked|) :: head[k] == baked[k]
  {
  }

  /** The two tools agree on an accepted bundle exactly when its marker is in lower case. */
  lemma FreshIffLowerCase(chunks: seq<Chunk>, expected: seq<Byte>)
    requires |expected| == 40 && Accepted(chunks, expected)
    ensures WholeFile(File(chunks)).Some?
    ensures FreshFor(expected, WholeFile(File(chunks)).value)
       <==> Fold(WholeFile(File(chunks)).value) == WholeFile(File(chunks)).value
  {
    AcceptedMeans(chunks, expected);
    var raw := WholeFile(File(chunks)).value;
    assert |raw| == |Fold(raw)| == 40;
  }

  // ----- two inputs

  lemma {:induction false} AllHexRun(s: seq<Byte>, i: nat, cap: nat)
    requires i + cap <= |s| && forall k | i <= k < i + cap :: IsHex(s[k])
    ensures HexRun(s, i, cap) == cap
    decreases cap
  {
    if cap > 0 { AllHexRun(s, i + 1, cap - 1); }
  }

  /** No byte starts a label. */
  ghost predicate Padding(pad: seq<Byte>) { forall k | 0 <= k < |pad| :: pad[k] != LabelByte(0) }

  /** After padding, a label followed by seven to forty digits is the first match, and the digits are its
      group. */
  lemma LabelledMatches(pad: seq<Byte>, digits: seq<Byte>)
    requires Padding(pad) && 7 <= |digits| <= 40 && forall k | 0 <= k < |digits| :: IsHex(digits[k])
    ensures var s := pad + LABEL + digits;
            IsFirst(s, |pad|) && Group(s, |pad|) == digits
  {
    var s, q := pad + LABEL + digits, |pad|;
    assert |LABEL| == 17;
    assert forall k: nat | k < 17 :: s[q + k] == LabelByte(k);
    assert LabelAt(s, q);
    AllHexRun(s, q + 17, |digits|);
    RunStops(s, q + 17, |digits|, 40);
    assert s[q + 17..q + 17 + |digits|] == digits;
    forall p: nat | p < q
      ensures !MatchesAt(s, p)
    {
      assert s[p + 0] == pad[p];
    }
  }

  /** A run that reaches the end of the bytes is the same under any larger cap. */
  lemma {:induction false} RunStops(s: seq<Byte>, i: nat, cap: nat, larger: nat)
    requires i + cap == |s| && cap <= larger && HexRun(s, i, cap) == cap
    ensures HexRun(s, i, larger) == cap
    decreases cap
  {
    if cap > 0 { RunStops(s, i + 1, cap - 1, larger - 1); }
  }

  lemma ShortHasNoMatch(s: seq<Byte>)
    requires |s| < 24
    ensures NoMatch(s)
  {
  }

  const UPPER_SHA: seq<Byte> := seq(40, _ => 65)
  const LOWER_SHA: seq<Byte> := seq(40, _ => 97)

  lemma OneReadAccepted(raw: seq<Byte>)
    requires |raw| == 40 && forall k | 0 <= k < 40 :: IsHex(raw[k])
    ensures Accepted([LABEL + raw], Fold(raw)) && WholeFile(File([LABEL + raw])) == Some(raw)
  {
    var chunks: seq<Chunk> := [LABEL + raw];
    assert File(chunks) == [] + LABEL + raw;
    LabelledMatches([], raw);
    WholeFileFirst(File(chunks), 0);
    AcceptedByPosition(chunks, Fold(raw), 0);
  }

  /** Forty digits A in one read: the SHA of forty a is accepted, the whole-file search yields the
      upper-case one, and the freshness check rejects the binary. */
  lemma UpperCaseAccepted()
    ensures Accepted([LABEL + UPPER_SHA], LOWER_SHA)
    ensures WholeFile(File([LABEL + UPPER_SHA])) == Some(UPPER_SHA) && UPPER_SHA != LOWER_SHA
    ensures !FreshFor(LOWER_SHA, UPPER_SHA)
  {
    OneReadAccepted(UPPER_SHA);
    assert Fold(UPPER_SHA) == LOWER_SHA;
    assert UPPER_SHA[0] == 65 && LOWER_SHA[0] == 97;
  }

  function Zeros(n: nat): (z: seq<Byte>)
    ensures |z| == n && forall k | 0 <= k < n :: z[k] == 0
  {
    seq(n, _ => 0)
  }

  /** A marker that starts 24 bytes before the end of the first mebibyte: seven digits are in the first
      read and the other thirty-three in the second; the file carries the SHA and is refused. */
  lemma CutShaRefused()
    ensures var chunks: seq<Chunk> := [Zeros(READ_CHUNK_BYTES - 24) + LABEL + LOWER_SHA[..7], LOWER_SHA[7..]];
            && FullReads(chunks) && WholeFile(File(chunks)) == Some(LOWER_SHA)
            && !Accepted(chunks, LOWER_SHA)
  {
    var pad := Zeros(READ_CHUNK_BYTES - 24);
    var first, second := pad + LABEL + LOWER_SHA[..7], LOWER_SHA[7..];
    CutRefused(pad, first, second, LOWER_SHA);
  }

  lemma CutRefused(pad: seq<Byte>, first: seq<Byte>, second: seq<Byte>, sha: seq<Byte>)
    requires |pad| == READ_CHUNK_BYTES - 24 && Padding(pad)
    requires |sha| == 40 && Fold(sha) == sha && forall k | 0 <= k < 40 :: IsHex(sha[k])
    requires first == pad + LABEL + sha[..7] && second == sha[7..]
    ensures FullReads([first, second]) && WholeFile(File([first, second])) == Some(sha)
    ensures !Accepted([first, second], sha)
  {
    var chunks: seq<Chunk> := [first, second];
    TwoReads(first, second);
    assert first + second == pad + LABEL + sha;
    LabelledMatches(pad, sha);
    WholeFileFirst(File(chunks), |pad|);
    AcceptedByPosition(chunks, sha, |pad|);
    assert EndsInside(1, |pad|);
  }

  lemma TwoReads(first: Chunk, second: Chunk)
    ensures File([first, second]) == first + second
  {
    assert [first, second][..1] == [first];
    assert File([first]) == File([]) + first;
  }
}
