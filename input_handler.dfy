/**
 * The validation done by `read_addresses_from_file` in
 * route_optimizer/input_handler.py, over the file's lines: every line is
 * stripped, blank ones are dropped, there must be 2 to 26 addresses, and no
 * two may be equal once lower-cased and whitespace-collapsed.
 */
module InputHandler {
  import opened Wrappers
  import opened Text

  /** One origin plus at least one waypoint. */
  const MinAddresses := 2
  /** The provider takes one origin plus at most 25 waypoints. */
  const MaxAddresses := 26

  /** Python's `str.isspace` (the characters `strip()` and `split()` remove). */
  predicate IsSpace(c: char)
  {
    ('\t' <= c <= '\r') || ('\U{1C}' <= c <= '\U{1F}') || c == ' ' ||
    c == '\U{85}' || c == '\U{A0}' || c == '\U{1680}' ||
    ('\U{2000}' <= c <= '\U{200A}') || c == '\U{2028}' || c == '\U{2029}' ||
    c == '\U{202F}' || c == '\U{205F}' || c == '\U{3000}'
  }

  predicate AllSpace(s: string)
  {
    forall i :: 0 <= i < |s| ==> IsSpace(s[i])
  }

  /** `s.lstrip()`: a suffix of `s`, empty exactly when `s` is all whitespace. */
  function TrimLeft(s: string): (r: string)
    ensures |r| <= |s| && r == s[|s| - |r|..]
    ensures r == "" <==> AllSpace(s)
    ensures r != "" ==> !IsSpace(r[0])
    decreases |s|
  {
    if |s| > 0 && IsSpace(s[0]) then
      var r := TrimLeft(s[1..]);
      assert AllSpace(s[1..]) ==> AllSpace(s) by {
        if AllSpace(s[1..]) {
          forall i | 0 <= i < |s| ensures IsSpace(s[i]) {
            if i > 0 { assert s[i] == s[1..][i - 1]; }
          }
        }
      }
      r
    else s
  }

  /** `s.rstrip()`: a prefix of `s` that keeps its first character when that is
    * not whitespace. */
  function TrimRight(s: string): (r: string)
    ensures |r| <= |s| && r == s[..|r|]
    ensures |s| > 0 && !IsSpace(s[0]) ==> |r| > 0
    ensures r != "" ==> !IsSpace(r[|r| - 1])
    decreases |s|
  {
    if |s| > 0 && IsSpace(s[|s| - 1]) then TrimRight(s[..|s| - 1]) else s
  }

  /** `s.strip()`: blank exactly for an all-whitespace line, and otherwise
    * neither starting nor ending with whitespace. */
  function Strip(s: string): (r: string)
    ensures r == "" <==> AllSpace(s)
    ensures r != "" ==> !IsSpace(r[0]) && !IsSpace(r[|r| - 1])
  {
    var t := TrimLeft(s);
    var r := TrimRight(t);
    assert r != "" ==> r[0] == t[0];
    r
  }

  /** `c.lower()` for ASCII letters; other characters are left as they are. */
  function LowerChar(c: char): char
  {
    if 'A' <= c <= 'Z' then (c as int + 32) as char else c
  }

  function Lower(s: string): (r: string)
    ensures |r| == |s|
    decreases |s|
  {
    if |s| == 0 then "" else [LowerChar(s[0])] + Lower(s[1..])
  }

  /** The longest whitespace-free prefix. */
  function WordPrefix(s: string): (w: string)
    ensures |w| <= |s| && w == s[..|w|]
    ensures |s| > 0 && !IsSpace(s[0]) ==> |w| > 0
    ensures forall i :: 0 <= i < |w| ==> !IsSpace(w[i])
    decreases |s|
  {
    if |s| == 0 || IsSpace(s[0]) then "" else [s[0]] + WordPrefix(s[1..])
  }

  /** `s.split()`: the maximal whitespace-free runs, in order. */
  function Words(s: string): seq<string>
    decreases |s|
  {
    if |s| == 0 then []
    else if IsSpace(s[0]) then Words(s[1..])
    else
      var w := WordPrefix(s);
      [w] + Words(s[|w|..])
  }

  /** `' '.join(addr.lower().split())`: the comparison form of an address. */
  function Normalize(addr: string): string
  {
    Join(' ', Words(Lower(addr)))
  }

  /** Lower-casing twice is lower-casing once. */
  lemma {:induction false} LowerIdempotent(s: string)
    ensures Lower(Lower(s)) == Lower(s)
    decreases |s|
  {
    if |s| > 0 {
      LowerIdempotent(s[1..]);
      var l := Lower(s);
      assert l[1..] == Lower(s[1..]);
    }
  }

  /** Case does not matter: an address compares like its lower-cased form. */
  lemma NormalizeIgnoresCase(addr: string)
    ensures Normalize(Lower(addr)) == Normalize(addr)
  {
    LowerIdempotent(addr);
  }

  /** A leading whitespace character does not matter. */
  lemma NormalizeIgnoresLeadingSpace(c: char, addr: string)
    requires IsSpace(c)
    ensures Normalize([c] + addr) == Normalize(addr)
  {
    var l := Lower([c] + addr);
    assert ([c] + addr)[1..] == addr;
    assert l == [c] + Lower(addr);
    assert l[1..] == Lower(addr);
  }

  /** Lower-casing works character by character. */
  lemma {:induction false} LowerAppend(x: string, y: string)
    ensures Lower(x + y) == Lower(x) + Lower(y)
    decreases |x|
  {
    if |x| > 0 {
      assert (x + y)[1..] == x[1..] + y;
      LowerAppend(x[1..], y);
    } else {
      assert x + y == y;
    }
  }

  /** A word ends at the first whitespace character. */
  lemma {:induction false} WordPrefixStopsAtSpace(x: string, c: char, y: string)
    requires IsSpace(c)
    ensures WordPrefix(x + [c] + y) == WordPrefix(x)
    decreases |x|
  {
    var s := x + [c] + y;
    if |x| == 0 {
      assert s[0] == c;
    } else {
      assert s[0] == x[0];
      if !IsSpace(x[0]) {
        assert s[1..] == x[1..] + [c] + y;
        WordPrefixStopsAtSpace(x[1..], c, y);
      }
    }
  }

  /** `split()` breaks at every whitespace character: the words on either side
    * of one are the words of each side. */
  lemma {:induction false} WordsSplitAtSpace(x: string, c: char, y: string)
    requires IsSpace(c)
    ensures Words(x + [c] + y) == Words(x) + Words(y)
    decreases |x|
  {
    var s := x + [c] + y;
    if |x| == 0 {
      assert s[0] == c && s[1..] == y;
    } else if IsSpace(x[0]) {
      assert s[0] == x[0] && s[1..] == x[1..] + [c] + y;
      WordsSplitAtSpace(x[1..], c, y);
    } else {
      assert s[0] == x[0];
      var w := WordPrefix(x);
      WordPrefixStopsAtSpace(x, c, y);
      assert s[|w|..] == x[|w|..] + [c] + y;
      WordsSplitAtSpace(x[|w|..], c, y);
    }
  }

  /** The words of a lower-cased address break at every whitespace character. */
  lemma LoweredWordsAtSpace(a: string, c: char, b: string)
    requires IsSpace(c)
    ensures Words(Lower(a + [c] + b)) == Words(Lower(a)) + Words(Lower(b))
  {
    LowerAppend(a + [c], b);
    LowerAppend(a, [c]);
    assert [c][1..] == "";
    assert LowerChar(c) == c;
    assert Lower([c]) == [c];
    assert Lower(a + [c] + b) == Lower(a) + [c] + Lower(b);
    WordsSplitAtSpace(Lower(a), c, Lower(b));
  }

  /** Trailing whitespace does not matter. */
  lemma NormalizeIgnoresTrailingSpace(a: string, c: char)
    requires IsSpace(c)
    ensures Normalize(a + [c]) == Normalize(a)
  {
    LoweredWordsAtSpace(a, c, "");
    assert a + [c] + "" == a + [c];
    assert Words(Lower(a)) + Words(Lower("")) == Words(Lower(a));
  }

  /** Any whitespace character separates words like a space. */
  lemma NormalizeAnySpace(a: string, c: char, b: string)
    requires IsSpace(c)
    ensures Normalize(a + [c] + b) == Normalize(a + " " + b)
  {
    LoweredWordsAtSpace(a, c, b);
    LoweredWordsAtSpace(a, ' ', b);
  }

  /** Two spaces separate words like one. */
  lemma NormalizeCollapsesRun(a: string, b: string)
    ensures Normalize(a + "  " + b) == Normalize(a + " " + b)
  {
    var sb := " " + b;
    LoweredWordsAtSpace(a, ' ', sb);
    LoweredWordsAtSpace("", ' ', b);
    assert "" + [' '] + b == sb;
    assert Words(Lower(sb)) == Words(Lower(b));
    LoweredWordsAtSpace(a, ' ', b);
    assert a + "  " + b == a + [' '] + sb;
  }

  /**
   * Spacing does not matter: trailing whitespace is dropped, any whitespace
   * character counts as a space, and a run of spaces counts as one.
   */
  lemma NormalizeIgnoresSpacing(a: string, c: char, b: string)
    requires IsSpace(c)
    ensures Normalize(a + [c]) == Normalize(a)
    ensures Normalize(a + [c] + b) == Normalize(a + " " + b)
    ensures Normalize(a + "  " + b) == Normalize(a + " " + b)
  {
    NormalizeIgnoresTrailingSpace(a, c);
    NormalizeAnySpace(a, c, b);
    NormalizeCollapsesRun(a, b);
  }

  /** Non-empty, and neither starting nor ending with whitespace. */
  predicate Stripped(a: string)
  {
    a != "" && !IsSpace(a[0]) && !IsSpace(a[|a| - 1])
  }

  /** The stripped non-blank lines, in file order. */
  function NonBlankLines(lines: seq<string>): (addrs: seq<string>)
    ensures |addrs| <= |lines|
    ensures forall i :: 0 <= i < |addrs| ==> Stripped(addrs[i])
    decreases |lines|
  {
    if |lines| == 0 then []
    else
      var prev := NonBlankLines(lines[..|lines| - 1]);
      var line := Strip(lines[|lines| - 1]);
      if line != "" then
        StrippedSnoc(prev, line);
        prev + [line]
      else prev
  }

  /** Appending a stripped line keeps every line stripped. */
  lemma StrippedSnoc(prev: seq<string>, line: string)
    requires forall i :: 0 <= i < |prev| ==> Stripped(prev[i])
    requires Stripped(line)
    ensures forall i :: 0 <= i < |prev| + 1 ==> Stripped((prev + [line])[i])
  {
    forall i | 0 <= i < |prev| + 1 ensures Stripped((prev + [line])[i]) {
      if i < |prev| {
        assert (prev + [line])[i] == prev[i];
      } else {
        assert (prev + [line])[i] == line;
      }
    }
  }

  /** The comparison form of every address, in order. */
  function NormalizeAll(addrs: seq<string>): (keys: seq<string>)
    ensures |keys| == |addrs|
    decreases |addrs|
  {
    if |addrs| == 0 then [] else NormalizeAll(addrs[..|addrs| - 1]) + [Normalize(addrs[|addrs| - 1])]
  }

  lemma {:induction false} NormalizeAllAt(addrs: seq<string>, i: nat)
    requires i < |addrs|
    ensures NormalizeAll(addrs)[i] == Normalize(addrs[i])
    decreases |addrs|
  {
    if i < |addrs| - 1 {
      NormalizeAllAt(addrs[..|addrs| - 1], i);
    }
  }

  lemma {:induction false} NormalizeAllPrefix(addrs: seq<string>, n: nat)
    requires n <= |addrs|
    ensures NormalizeAll(addrs[..n]) == NormalizeAll(addrs)[..n]
    decreases |addrs|
  {
    if n < |addrs| {
      assert addrs[..|addrs| - 1][..n] == addrs[..n];
      NormalizeAllPrefix(addrs[..|addrs| - 1], n);
    } else {
      assert addrs[..n] == addrs;
    }
  }

  /** The first position holding `key`, if any. */
  function FirstIndex(keys: seq<string>, key: string): (r: Option<nat>)
    ensures r.Some? ==> r.value < |keys| && keys[r.value] == key
    ensures r.Some? ==> forall j :: 0 <= j < r.value ==> keys[j] != key
    ensures r.None? ==> key !in keys
    decreases |keys|
  {
    if |keys| == 0 then None
    else if keys[0] == key then Some(0)
    else match FirstIndex(keys[1..], key)
      case None => None
      case Some(j) => Some(j + 1)
  }

  /** Appending keeps every earlier first occurrence, and makes the new key's
    * position its first occurrence when it was not seen before. */
  lemma FirstIndexSnoc(keys: seq<string>, x: string, key: string)
    ensures FirstIndex(keys + [x], key) ==
            if FirstIndex(keys, key).Some? then FirstIndex(keys, key)
            else if x == key then Some(|keys|)
            else None
  {
    var r, r' := FirstIndex(keys, key), FirstIndex(keys + [x], key);
    assert forall j :: 0 <= j < |keys| ==> (keys + [x])[j] == keys[j];
    if r.Some? {
      assert (keys + [x])[r.value] == key;
    } else if x == key {
      assert (keys + [x])[|keys|] == key;
    }
  }

  /** One reported duplicate: the 1-based position of the first occurrence and
    * of the later one, with both addresses as written. */
  datatype DuplicatePair = DuplicatePair(firstLine: nat, firstAddress: string, line: nat, address: string)

  /** The duplicates reported, in order: every address whose key occurs earlier
    * is paired with the first address holding that key. */
  function DuplicateReport(addrs: seq<string>, keys: seq<string>): seq<DuplicatePair>
    requires |keys| == |addrs|
    decreases |addrs|
  {
    if |addrs| == 0 then []
    else
      var n := |addrs| - 1;
      DuplicateReport(addrs[..n], keys[..n]) +
        match FirstIndex(keys[..n], keys[n])
        case Some(j) => [DuplicatePair(j + 1, addrs[j], n + 1, addrs[n])]
        case None => []
  }

  /** Scanning one more position appends at most one pair: the one for that
    * position when its key occurred before. */
  lemma DuplicateReportSnoc(addrs: seq<string>, keys: seq<string>, i: nat)
    requires |keys| == |addrs| && i < |addrs|
    ensures DuplicateReport(addrs[..i + 1], keys[..i + 1]) ==
            DuplicateReport(addrs[..i], keys[..i]) +
              match FirstIndex(keys[..i], keys[i])
              case Some(j) => [DuplicatePair(j + 1, addrs[j], i + 1, addrs[i])]
              case None => []
  {
    assert addrs[..i + 1][..i] == addrs[..i];
    assert keys[..i + 1][..i] == keys[..i];
  }

  /** No key occurs twice. */
  predicate Distinct(keys: seq<string>)
  {
    forall i, j :: 0 <= i < j < |keys| ==> keys[i] != keys[j]
  }

  /** No two addresses normalise alike. */
  predicate PairwiseDistinct(addrs: seq<string>)
  {
    forall i, j :: 0 <= i < j < |addrs| ==> Normalize(addrs[i]) != Normalize(addrs[j])
  }

  lemma DistinctNormalized(addrs: seq<string>)
    ensures Distinct(NormalizeAll(addrs)) <==> PairwiseDistinct(addrs)
  {
    var keys := NormalizeAll(addrs);
    forall i | 0 <= i < |addrs| ensures keys[i] == Normalize(addrs[i]) {
      NormalizeAllAt(addrs, i);
    }
  }

  /** What a reported pair says about the addresses and their keys. */
  predicate PointsToFirst(addrs: seq<string>, keys: seq<string>, p: DuplicatePair)
    requires |keys| == |addrs|
  {
    1 <= p.firstLine < p.line <= |addrs| &&
    p.firstAddress == addrs[p.firstLine - 1] && p.address == addrs[p.line - 1] &&
    keys[p.firstLine - 1] == keys[p.line - 1] &&
    forall k :: 0 <= k < p.firstLine - 1 ==> keys[k] != keys[p.line - 1]
  }

  /** Every reported pair points from a later address to the first one with
    * the same key. */
  lemma {:induction false} DuplicateReportSound(addrs: seq<string>, keys: seq<string>)
    requires |keys| == |addrs|
    ensures forall p :: p in DuplicateReport(addrs, keys) ==> PointsToFirst(addrs, keys, p)
    decreases |addrs|
  {
    if |addrs| > 0 {
      var n := |addrs| - 1;
      var prev, pkeys := addrs[..n], keys[..n];
      DuplicateReportSound(prev, pkeys);
      forall p | p in DuplicateReport(addrs, keys) ensures PointsToFirst(addrs, keys, p) {
        if p in DuplicateReport(prev, pkeys) {
          assert PointsToFirst(prev, pkeys, p);
          assert keys[p.line - 1] == pkeys[p.line - 1];
        }
      }
    }
  }

  /** Reported lines are 1-based positions within the list. */
  lemma {:induction false} DuplicateReportLines(addrs: seq<string>, keys: seq<string>)
    requires |keys| == |addrs|
    ensures forall p :: p in DuplicateReport(addrs, keys) ==> 1 <= p.line <= |addrs|
    decreases |addrs|
  {
    if |addrs| > 0 {
      DuplicateReportLines(addrs[..|addrs| - 1], keys[..|addrs| - 1]);
    }
  }

  /** Each pair's first occurrence comes before it and both lie within the
    * first `n` lines; the pairs come in strictly increasing line order. */
  predicate PairsInLineOrder(r: seq<DuplicatePair>, n: nat)
  {
    (forall k :: 0 <= k < |r| ==> 1 <= r[k].firstLine < r[k].line <= n) &&
    (forall k, l :: 0 <= k < l < |r| ==> r[k].line < r[l].line)
  }

  /** Pairs in order within `n` lines stay in order after a pair for line `n + 1`. */
  lemma PairsInLineOrderSnoc(r: seq<DuplicatePair>, n: nat, tail: seq<DuplicatePair>)
    requires PairsInLineOrder(r, n)
    requires |tail| <= 1
    requires |tail| == 1 ==> 1 <= tail[0].firstLine < tail[0].line == n + 1
    ensures PairsInLineOrder(r + tail, n + 1)
  {
    var s := r + tail;
    forall k | 0 <= k < |s| ensures 1 <= s[k].firstLine < s[k].line <= n + 1 {
      if k < |r| {
        assert s[k] == r[k];
      }
    }
    forall k, l | 0 <= k < l < |s| ensures s[k].line < s[l].line {
      assert s[k] == r[k];
      if l < |r| {
        assert s[l] == r[l];
      }
    }
  }

  /** Each pair's first occurrence comes before it, and the pairs come in line order. */
  lemma {:induction false} DuplicateReportOrdered(addrs: seq<string>, keys: seq<string>)
    requires |keys| == |addrs|
    ensures PairsInLineOrder(DuplicateReport(addrs, keys), |addrs|)
    decreases |addrs|
  {
    if |addrs| > 0 {
      var n := |addrs| - 1;
      var prev, pkeys := addrs[..n], keys[..n];
      DuplicateReportOrdered(prev, pkeys);
      var found := FirstIndex(pkeys, keys[n]);
      var tail := if found.Some? then [DuplicatePair(found.value + 1, addrs[found.value], n + 1, addrs[n])] else [];
      assert DuplicateReport(addrs, keys) == DuplicateReport(prev, pkeys) + tail;
      PairsInLineOrderSnoc(DuplicateReport(prev, pkeys), n, tail);
    }
  }

  /** A position whose key occurs earlier is reported. */
  lemma {:induction false} DuplicateReportFindsRepeat(addrs: seq<string>, keys: seq<string>, i: nat)
    requires |keys| == |addrs| && i < |addrs|
    requires exists j :: 0 <= j < i && keys[j] == keys[i]
    ensures exists p :: p in DuplicateReport(addrs, keys) && p.line == i + 1
    decreases |addrs|
  {
    var n := |addrs| - 1;
    var prev, pkeys := addrs[..n], keys[..n];
    var r := DuplicateReport(addrs, keys);
    var found := FirstIndex(pkeys, keys[n]);
    var tail := if found.Some? then [DuplicatePair(found.value + 1, addrs[found.value], n + 1, addrs[n])] else [];
    assert r == DuplicateReport(prev, pkeys) + tail;
    var j :| 0 <= j < i && keys[j] == keys[i];
    if i < n {
      assert pkeys[j] == pkeys[i];
      DuplicateReportFindsRepeat(prev, pkeys, i);
      var p :| p in DuplicateReport(prev, pkeys) && p.line == i + 1;
      assert p in r;
    } else {
      assert pkeys[j] == keys[n];
      assert tail[0] in r;
    }
  }

  /** A position is reported exactly when an earlier position holds its key. */
  lemma DuplicateReportComplete(addrs: seq<string>, keys: seq<string>, i: nat)
    requires |keys| == |addrs| && i < |addrs|
    ensures (exists p :: p in DuplicateReport(addrs, keys) && p.line == i + 1) <==>
            (exists j :: 0 <= j < i && keys[j] == keys[i])
  {
    if exists j :: 0 <= j < i && keys[j] == keys[i] {
      DuplicateReportFindsRepeat(addrs, keys, i);
    } else {
      DuplicateReportSound(addrs, keys);
      forall p | p in DuplicateReport(addrs, keys) ensures p.line != i + 1 {
        assert PointsToFirst(addrs, keys, p);
        assert keys[p.firstLine - 1] == keys[p.line - 1];
      }
    }
  }

  /** No duplicates are reported exactly when the keys are distinct. */
  lemma DuplicateReportEmptyIff(addrs: seq<string>, keys: seq<string>)
    requires |keys| == |addrs|
    ensures DuplicateReport(addrs, keys) == [] <==> Distinct(keys)
  {
    DuplicateReportSound(addrs, keys);
    if DuplicateReport(addrs, keys) != [] {
      var p := DuplicateReport(addrs, keys)[0];
      assert p in DuplicateReport(addrs, keys);
      assert PointsToFirst(addrs, keys, p);
    }
    if !Distinct(keys) {
      var i, j :| 0 <= i < j < |keys| && keys[i] == keys[j];
      DuplicateReportComplete(addrs, keys, j);
    }
  }

  /** Why `read_addresses_from_file` raises `ValueError`. */
  datatype InputError =
    | TooFewAddresses(found: nat)
    | TooManyAddresses(found: nat)
    | DuplicateAddresses(pairs: seq<DuplicatePair>)

  /** One more line adds its stripped form when that is not blank. */
  lemma NonBlankLinesSnoc(lines: seq<string>, i: nat)
    requires i < |lines|
    ensures NonBlankLines(lines[..i + 1]) ==
            NonBlankLines(lines[..i]) + (if Strip(lines[i]) != "" then [Strip(lines[i])] else [])
  {
    assert lines[..i + 1][..i] == lines[..i];
  }

  /** The first loop of `read_addresses_from_file`: strip every line and keep
    * the non-blank ones. */
  method StripLines(lines: seq<string>) returns (addresses: seq<string>)
    ensures addresses == NonBlankLines(lines)
  {
    addresses := [];
    for i := 0 to |lines|
      invariant addresses == NonBlankLines(lines[..i])
    {
      NonBlankLinesSnoc(lines, i);
      var line := Strip(lines[i]);
      if line != "" {
        addresses := addresses + [line];
      }
    }
    assert lines[..|lines|] == lines;
  }

  /** `' '.join(addr.lower().split())` for the address at position `i`. */
  method NormalizedAt(addresses: seq<string>, i: nat) returns (key: string)
    requires i < |addresses|
    ensures key == NormalizeAll(addresses)[i]
  {
    key := Normalize(addresses[i]);
    NormalizeAllAt(addresses, i);
  }

  /** The scan's dict: each normalised address seen so far, mapped to the
    * 1-based position of its first occurrence. */
  ghost predicate FirstPositions(normalized: map<string, nat>, keys: seq<string>)
  {
    forall key ::
      (key in normalized <==> FirstIndex(keys, key).Some?) &&
      (key in normalized ==> normalized[key] == FirstIndex(keys, key).value + 1)
  }

  /** One step of the scan keeps the dict in step with the keys seen. */
  lemma FirstPositionsSnoc(normalized: map<string, nat>, keys: seq<string>, key: string)
    requires FirstPositions(normalized, keys)
    ensures key in normalized ==>
              FirstIndex(keys, key) == Some(normalized[key] - 1) && FirstPositions(normalized, keys + [key])
    ensures key !in normalized ==>
              FirstIndex(keys, key).None? && FirstPositions(normalized[key := |keys| + 1], keys + [key])
  {
    forall k ensures FirstIndex(keys + [key], k) ==
                     if FirstIndex(keys, k).Some? then FirstIndex(keys, k)
                     else if key == k then Some(|keys|) else None
    {
      FirstIndexSnoc(keys, key, k);
    }
  }

  /** One iteration of the duplicate scan: a key already in the dict adds the
    * pair for its first position and leaves the dict as it is; a new key adds
    * nothing and enters the dict with its own position. */
  lemma ScanStep(addrs: seq<string>, keys: seq<string>, i: nat, normalized: map<string, nat>)
    requires |keys| == |addrs| && i < |addrs|
    requires FirstPositions(normalized, keys[..i])
    ensures keys[i] in normalized ==>
              1 <= normalized[keys[i]] <= i &&
              DuplicateReport(addrs[..i + 1], keys[..i + 1]) ==
                DuplicateReport(addrs[..i], keys[..i]) +
                  [DuplicatePair(normalized[keys[i]], addrs[normalized[keys[i]] - 1], i + 1, addrs[i])] &&
              FirstPositions(normalized, keys[..i + 1])
    ensures keys[i] !in normalized ==>
              DuplicateReport(addrs[..i + 1], keys[..i + 1]) == DuplicateReport(addrs[..i], keys[..i]) &&
              FirstPositions(normalized[keys[i] := i + 1], keys[..i + 1])
  {
    assert keys[..i + 1] == keys[..i] + [keys[i]];
    DuplicateReportSnoc(addrs, keys, i);
    FirstPositionsSnoc(normalized, keys[..i], keys[i]);
  }

  /** The duplicate scan of `read_addresses_from_file`: a dict from normalised
    * address to the 1-based position of its first occurrence. */
  method FindDuplicates(addresses: seq<string>) returns (duplicates: seq<DuplicatePair>)
    ensures duplicates == DuplicateReport(addresses, NormalizeAll(addresses))
  {
    ghost var keys := NormalizeAll(addresses);
    var normalized: map<string, nat> := map[];
    duplicates := [];
    assert keys[..0] == [] && addresses[..0] == [];
    for i := 0 to |addresses|
      invariant FirstPositions(normalized, keys[..i])
      invariant duplicates == DuplicateReport(addresses[..i], keys[..i])
    {
      var key := NormalizedAt(addresses, i);
      ScanStep(addresses, keys, i, normalized);
      if key in normalized {
        var first := normalized[key];
        duplicates := duplicates + [DuplicatePair(first, addresses[first - 1], i + 1, addresses[i])];
      } else {
        normalized := normalized[key := i + 1];
      }
    }
    assert addresses[..|addresses|] == addresses && keys[..|addresses|] == keys;
  }

  /**
   * The validation of `read_addresses_from_file`, over the file's lines: the
   * stripped non-blank lines, rejected when there are fewer than 2 or more
   * than 26 of them or when any two normalise alike.
   */
  method ReadAddresses(lines: seq<string>) returns (r: Result<seq<string>, InputError>)
    ensures var addrs := NonBlankLines(lines);
            var report := DuplicateReport(addrs, NormalizeAll(addrs));
            r == if |addrs| < MinAddresses then Err(TooFewAddresses(|addrs|))
                 else if |addrs| > MaxAddresses then Err(TooManyAddresses(|addrs|))
                 else if report != [] then Err(DuplicateAddresses(report))
                 else Ok(addrs)
    ensures r.Ok? <==>
              MinAddresses <= |NonBlankLines(lines)| <= MaxAddresses && PairwiseDistinct(NonBlankLines(lines))
  {
    var addresses := StripLines(lines);
    DuplicateReportEmptyIff(addresses, NormalizeAll(addresses));
    DistinctNormalized(addresses);
    if |addresses| < MinAddresses {
      return Err(TooFewAddresses(|addresses|));
    }
    if |addresses| > MaxAddresses {
      return Err(TooManyAddresses(|addresses|));
    }
    var duplicates := FindDuplicates(addresses);
    if |duplicates| > 0 {
      return Err(DuplicateAddresses(duplicates));
    }
    r := Ok(addresses);
  }
}
