/** The Boyer-Moore search of recovery/recovery_updater.cpp: two shift tables, the capped suffix
  * length they are built from, and the skipping scan.
  *
  * The methods have the source's loops; each is proved against a function of the pattern (and the
  * text). The theorems are about those functions. The scan never reports a false occurrence. It
  * finds the leftmost occurrence in every text exactly when the pattern is `Safe`: the prefix
  * table is built from the suffix at p but records p + 1, so one family of patterns with a border
  * is shifted one position too far.
  */
module BoyerMoore {
  import opened Wrappers

  newtype byte = x: int | 0 <= x < 256

  const ALPHABET_LEN := 256
  const INT_MAX := 0x7fff_ffff

  // ---------------------------------------------------------------- what a search is for

  ghost predicate OccursAt(text: seq<byte>, pat: seq<byte>, w: int) {
    && 0 <= w <= |text| - |pat|
    && forall k :: 0 <= k < |pat| ==> text[w + k] == pat[k]
  }

  /** r is the first occurrence, or None when there is no occurrence at all. */
  ghost predicate IsLeftmost(text: seq<byte>, pat: seq<byte>, r: Option<nat>) {
    match r
    case Some(w) => OccursAt(text, pat, w) && forall v :: 0 <= v < w ==> !OccursAt(text, pat, v)
    case None => forall v :: 0 <= v <= |text| - |pat| ==> !OccursAt(text, pat, v)
  }

  // ---------------------------------------------------------------- the pattern's self-overlaps

  /** strncmp(a, b, n) == 0: equal up to n bytes or up to a common terminating zero. */
  predicate StrncmpIsZero(a: seq<byte>, b: seq<byte>, n: nat)
    requires n <= |a| && n <= |b|
  {
    n == 0 || (a[0] == b[0] && (a[0] == 0 || StrncmpIsZero(a[1..], b[1..], n - 1)))
  }

  /** The test of the first table loop: does the suffix that starts at p compare equal to a prefix? */
  predicate PrefixTest(pat: seq<byte>, p: nat)
    requires p <= |pat|
  {
    StrncmpIsZero(pat[p..], pat, |pat| - p)
  }

  /** Positions k and k + d exist and hold the same byte. */
  predicate Echo(pat: seq<byte>, k: int, d: int) {
    0 <= k < |pat| && 0 <= k + d < |pat| && pat[k] == pat[k + d]
  }

  /** The slice [lo, hi) recurs d places to the right. */
  predicate Recurs(pat: seq<byte>, lo: int, hi: int, d: int) {
    forall k | lo <= k < hi :: Echo(pat, k, d)
  }

  /** A proper border: the suffix that starts at q is also a prefix. */
  predicate Border(pat: seq<byte>, q: int) {
    0 < q < |pat| && Recurs(pat, 0, |pat| - q, q)
  }

  /** The last len bytes of pat also end at position p. */
  predicate SuffixEndsAt(pat: seq<byte>, p: nat, len: nat)
    requires p < |pat| && len <= p + 1
  {
    Recurs(pat, p + 1 - len, p + 1, |pat| - 1 - p)
  }

  /** The suffix behind position j occurs again, ending at p, behind a different byte. */
  predicate Realigns(pat: seq<byte>, j: nat, p: int)
    requires j < |pat|
  {
    var len := |pat| - 1 - j;
    && len <= p < |pat| - 1
    && SuffixEndsAt(pat, p, len)
    && pat[p - len] != pat[j]
  }

  /** After a mismatch at j the table shifts past the border start q: the suffix behind j does not
    * occur again behind another byte, and no start in [j, q) passes the prefix test before q does.
    */
  predicate Overshoots(pat: seq<byte>, j: nat, q: nat)
    requires 1 <= j < q < |pat|
  {
    && Border(pat, q)
    && (forall p :: 0 <= p < |pat| ==> !Realigns(pat, j, p))
    && (forall c :: j <= c < q ==> !PrefixTest(pat, c))
  }

  /** The patterns the search is complete for. */
  predicate Safe(pat: seq<byte>) {
    forall j: nat, q: nat | 1 <= j < q < |pat| :: !Overshoots(pat, j, q)
  }

  // ---------------------------------------------------------------- the tables as functions

  /** The last index below n that holds c, or -1. */
  function LastIndexBelow(pat: seq<byte>, c: byte, n: nat): (r: int)
    requires n <= |pat|
    ensures -1 <= r < n
    ensures r >= 0 ==> pat[r] == c
    ensures forall k :: r < k < n ==> pat[k] != c
  {
    if n == 0 then -1 else if pat[n - 1] == c then n - 1 else LastIndexBelow(pat, c, n - 1)
  }

  function Delta1(pat: seq<byte>, c: byte): (d: int)
    requires |pat| >= 1
  {
    |pat| - 1 - LastIndexBelow(pat, c, |pat| - 1)
  }

  /** What the first loop holds in last_prefix when it writes entry p: one more than the first start
    * at or after p that passes the prefix test, or |pat| - 1 when none does.
    */
  function LastPrefix(pat: seq<byte>, p: nat): (r: int)
    requires p <= |pat|
    decreases |pat| - p
  {
    if p == |pat| then |pat| - 1
    else if PrefixTest(pat, p) then p + 1
    else LastPrefix(pat, p + 1)
  }

  /** The rightmost position below n at which the suffix behind j realigns, or -1. */
  function RightmostRealign(pat: seq<byte>, j: nat, n: nat): (r: int)
    requires j < |pat|
    ensures -1 <= r < n
  {
    if n == 0 then -1
    else if Realigns(pat, j, n - 1) then n - 1
    else RightmostRealign(pat, j, n - 1)
  }

  /** Entry j after the second loop has run for every p below n. */
  function Delta2Upto(pat: seq<byte>, j: nat, n: nat): (d: int)
    requires j < |pat|
  {
    var p := RightmostRealign(pat, j, n);
    (|pat| - 1 - j) + (if p >= 0 then |pat| - 1 - p else LastPrefix(pat, j))
  }

  function Delta2(pat: seq<byte>, j: nat): (d: int)
    requires j < |pat|
  {
    Delta2Upto(pat, j, |pat| - 1)
  }

  function Delta2Table(pat: seq<byte>, n: nat): (d: seq<int>)
    ensures |d| == |pat|
  {
    seq(|pat|, j requires 0 <= j < |pat| => Delta2Upto(pat, j, n))
  }

  // ---------------------------------------------------------------- the scan as a function

  /** The rightmost mismatch of the window at w among positions 0..j, or -1. */
  function MismatchFrom(text: seq<byte>, pat: seq<byte>, w: nat, j: int): (r: int)
    requires -1 <= j < |pat| && w + |pat| <= |text|
    ensures -1 <= r <= j
    ensures r >= 0 ==> text[w + r] != pat[r]
    ensures forall k :: r < k <= j ==> text[w + k] == pat[k]
    decreases j + 1
  {
    if j < 0 then -1
    else if text[w + j] != pat[j] then j
    else MismatchFrom(text, pat, w, j - 1)
  }

  function Max(a: int, b: int): int { if a > b then a else b }

  /** The two shift tables. */
  datatype Tables = Tables(delta1: seq<int>, delta2: seq<int>) {
    /** Sizes as the scan reads them, bounded shifts, and good-suffix entries that move the window forward. */
    predicate Usable(patLen: nat) {
      && |delta1| == ALPHABET_LEN && |delta2| == patLen
      && (forall c :: 0 <= c < ALPHABET_LEN ==> delta1[c] <= patLen)
      && forall j :: 0 <= j < patLen ==> patLen - 1 - j < delta2[j] <= 2 * patLen
    }
  }

  function TablesOf(pat: seq<byte>): (t: Tables)
    requires |pat| >= 1
  {
    Tables(seq(ALPHABET_LEN, c requires 0 <= c < ALPHABET_LEN => Delta1(pat, c as byte)),
           Delta2Table(pat, |pat| - 1))
  }

  /** Where the window ends after a mismatch at pattern position j of the window at w. */
  function NextEnd(text: seq<byte>, pat: seq<byte>, t: Tables, w: nat, j: nat): (e: nat)
    requires j < |pat| && w + |pat| <= |text| && t.Usable(|pat|)
    ensures w + |pat| - 1 < e
  {
    w + j + Max(t.delta1[text[w + j] as int], t.delta2[j])
  }

  /** The window moves by both shifts' worth, and by no more than one of them asks for. */
  lemma NextEndIsLarger(text: seq<byte>, pat: seq<byte>, t: Tables, w: nat, j: nat)
    requires j < |pat| && w + |pat| <= |text| && t.Usable(|pat|)
    ensures var e, shift1, shift2 := NextEnd(text, pat, t, w, j), t.delta1[text[w + j] as int], t.delta2[j];
            && e >= w + j + shift1 && e >= w + j + shift2
            && (e == w + j + shift1 || e == w + j + shift2)
  {
  }

  /** The scan from the window that ends at `end`. */
  function Scan(text: seq<byte>, pat: seq<byte>, t: Tables, end: nat): Option<nat>
    requires 1 <= |pat| <= end + 1 && t.Usable(|pat|)
    decreases |text| - end
  {
    if end >= |text| then None else
      var w := end - (|pat| - 1);
      var j := MismatchFrom(text, pat, w, |pat| - 1);
      if j < 0 then Some(w) else Scan(text, pat, t, NextEnd(text, pat, t, w, j))
  }

  function Search(text: seq<byte>, pat: seq<byte>): Option<nat>
    requires |pat| >= 1
  {
    TablesUsable(pat);
    Scan(text, pat, TablesOf(pat), |pat| - 1)
  }

  lemma TablesUsable(pat: seq<byte>)
    requires |pat| >= 1
    ensures TablesOf(pat).Usable(|pat|)
  {
    var t := TablesOf(pat);
    forall j: nat | j < |pat| ensures |pat| - 1 - j < t.delta2[j] <= 2 * |pat| {
      Delta2Range(pat, j);
      assert t.delta2[j] == Delta2(pat, j);
    }
  }

  // ---------------------------------------------------------------- the source's loops

  /** max_suffix_len: the length, capped at p, of the longest common suffix of pat[..p + 1] and pat. */
  method MaxSuffixLen(str: seq<byte>, p: nat) returns (i: nat)
    requires p < |str|
    ensures i <= p && SuffixEndsAt(str, p, i)
    ensures i < p ==> str[p - i] != str[|str| - 1 - i]
  {
    i := 0;
    while str[p - i] == str[|str| - 1 - i] && i < p
      invariant i <= p && SuffixEndsAt(str, p, i)
    {
      assert Echo(str, p - i, |str| - 1 - p);
      i := i + 1;
    }
  }

  /** bm_make_delta1: the distance from the last byte to the rightmost earlier occurrence of each byte. */
  method MakeDelta1(delta1: array<int>, pat: seq<byte>)
    requires delta1.Length == ALPHABET_LEN && |pat| >= 1
    modifies delta1
    ensures forall c: byte :: delta1[c as int] == Delta1(pat, c)
  {
    var i := 0;
    while i < ALPHABET_LEN
      invariant 0 <= i <= ALPHABET_LEN
      invariant forall c :: 0 <= c < i ==> delta1[c] == |pat|
    {
      delta1[i] := |pat|;
      i := i + 1;
    }
    i := 0;
    while i < |pat| - 1
      invariant 0 <= i <= |pat| - 1
      invariant forall c: byte :: delta1[c as int] == |pat| - 1 - LastIndexBelow(pat, c, i)
    {
      var idx := pat[i] as int;
      delta1[idx] := |pat| - 1 - i;
      i := i + 1;
    }
  }

  /** The body of the second loop of bm_make_delta2. */
  method Realign(delta2: array<int>, pat: seq<byte>, p: nat) returns (sufLen: nat)
    requires delta2.Length == |pat| && p < |pat| - 1
    modifies delta2
    ensures sufLen <= p && SuffixEndsAt(pat, p, sufLen)
    ensures sufLen < p ==> pat[p - sufLen] != pat[|pat| - 1 - sufLen]
    ensures delta2[..] == if pat[p - sufLen] != pat[|pat| - 1 - sufLen]
                          then old(delta2[..])[|pat| - 1 - sufLen := |pat| - 1 - p + sufLen]
                          else old(delta2[..])
  {
    sufLen := MaxSuffixLen(pat, p);
    if pat[p - sufLen] != pat[|pat| - 1 - sufLen] {
      delta2[|pat| - 1 - sufLen] := |pat| - 1 - p + sufLen;
    }
  }

  /** The first loop of bm_make_delta2: the prefix values. */
  method FillPrefixes(delta2: array<int>, pat: seq<byte>)
    requires delta2.Length == |pat| >= 1
    modifies delta2
    ensures forall j: nat :: j < |pat| ==> delta2[j] == LastPrefix(pat, j) + (|pat| - 1 - j)
  {
    var lastPrefix := |pat| - 1;
    var p := |pat| - 1;
    while p >= 0
      invariant -1 <= p < |pat|
      invariant lastPrefix == LastPrefix(pat, p + 1)
      invariant forall j: nat :: p < j < |pat| ==> delta2[j] == LastPrefix(pat, j) + (|pat| - 1 - j)
    {
      if PrefixTest(pat, p) {
        lastPrefix := p + 1;
      }
      delta2[p] := lastPrefix + (|pat| - 1 - p);
      p := p - 1;
    }
  }

  /** bm_make_delta2: the prefix values first, then the realignments, left to right. */
  method MakeDelta2(delta2: array<int>, pat: seq<byte>)
    requires delta2.Length == |pat| >= 1
    modifies delta2
    ensures delta2[..] == Delta2Table(pat, |pat| - 1)
  {
    FillPrefixes(delta2, pat);
    assert delta2[..] == Delta2Table(pat, 0);
    var p := 0;
    while p < |pat| - 1
      invariant 0 <= p <= |pat| - 1
      invariant delta2[..] == Delta2Table(pat, p)
    {
      var sufLen := Realign(delta2, pat, p);
      Delta2TableStep(pat, p, sufLen);
      p := p + 1;
    }
  }

  /** bm_search. The index arithmetic stays inside a C int when the text leaves room for one shift. */
  method BmSearch(str: seq<byte>, pat: seq<byte>) returns (r: Option<nat>)
    requires |pat| >= 1 && |str| + 2 * |pat| <= INT_MAX
    ensures r == Search(str, pat)
    ensures r.Some? ==> OccursAt(str, pat, r.value)
    ensures Safe(pat) ==> IsLeftmost(str, pat, r)
  {
    var delta1 := new int[ALPHABET_LEN];
    var delta2 := new int[|pat|];
    MakeDelta1(delta1, pat);
    MakeDelta2(delta2, pat);
    TablesUsable(pat);
    assert Tables(delta1[..], delta2[..]) == TablesOf(pat);
    r := ScanWindows(str, pat, delta1, delta2);
    SearchSound(str, pat);
    if Safe(pat) { SearchComplete(str, pat); }
  }

  /** The scanning loop of bm_search, over the finished tables. */
  method ScanWindows(str: seq<byte>, pat: seq<byte>, delta1: array<int>, delta2: array<int>) returns (r: Option<nat>)
    requires |pat| >= 1 && |str| + 2 * |pat| <= INT_MAX
    requires Tables(delta1[..], delta2[..]).Usable(|pat|)
    ensures r == Scan(str, pat, Tables(delta1[..], delta2[..]), |pat| - 1)
  {
    ghost var t := Tables(delta1[..], delta2[..]);
    ghost var result := Scan(str, pat, t, |pat| - 1);
    var i := |pat| - 1;
    while i < |str|
      invariant |pat| - 1 <= i <= INT_MAX
      invariant Scan(str, pat, t, i) == result
      decreases |str| - i
    {
      var j;
      i, j := ScanWindow(str, pat, delta1, delta2, t, i);
      if j < 0 {
        return Some(i + 1);
      }
    }
    return None;
  }

  /** The outer loop's body: with j < 0 the window matched, otherwise i is where the next one ends. */
  method ScanWindow(str: seq<byte>, pat: seq<byte>, delta1: array<int>, delta2: array<int>, ghost t: Tables, end: nat)
    returns (i: int, j: int)
    requires 1 <= |pat| <= end + 1 && end < |str| && |str| + 2 * |pat| <= INT_MAX
    requires t == Tables(delta1[..], delta2[..]) && t.Usable(|pat|)
    ensures j < 0 ==> i + 1 >= 0 && Scan(str, pat, t, end) == Some(i + 1)
    ensures j >= 0 ==> end < i <= INT_MAX && Scan(str, pat, t, end) == Scan(str, pat, t, i)
  {
    ScanStep(str, pat, t, end);
    i, j := MatchBackwards(str, pat, end);
    if j >= 0 {
      var shift := ShiftAt(delta1, delta2, str[i], j);
      i := i + shift;
    }
  }

  /** The larger of the two shifts. */
  method ShiftAt(delta1: array<int>, delta2: array<int>, c: byte, j: nat) returns (shift: int)
    requires delta1.Length == ALPHABET_LEN && j < delta2.Length
    ensures shift == Max(delta1[..][c as int], delta2[..][j])
  {
    shift := Max(delta1[c as int], delta2[j]);
  }

  /** The inner loop: compares the window that ends at `end` from its last byte on. */
  method MatchBackwards(str: seq<byte>, pat: seq<byte>, end: nat) returns (i: int, j: int)
    requires |pat| - 1 <= end < |str|
    ensures j == MismatchFrom(str, pat, end - (|pat| - 1), |pat| - 1)
    ensures i == end - (|pat| - 1) + j
  {
    ghost var w := end - (|pat| - 1);
    i, j := end, |pat| - 1;
    while j >= 0 && str[i] == pat[j]
      invariant -1 <= j < |pat| && i == w + j
      invariant MismatchFrom(str, pat, w, |pat| - 1) == MismatchFrom(str, pat, w, j)
    {
      i := i - 1;
      j := j - 1;
    }
  }

  /** One window of the scan: it ends here, or goes on behind the larger shift. */
  lemma ScanStep(text: seq<byte>, pat: seq<byte>, t: Tables, end: nat)
    requires 1 <= |pat| <= end + 1 && t.Usable(|pat|) && end < |text|
    ensures var w := end - (|pat| - 1);
            var j := MismatchFrom(text, pat, w, |pat| - 1);
            && (j < 0 ==> Scan(text, pat, t, end) == Some(w))
            && (j >= 0 ==>
                  var next := w + j + Max(t.delta1[text[w + j] as int], t.delta2[j]);
                  end < next <= end + 2 * |pat| && Scan(text, pat, t, end) == Scan(text, pat, t, next))
  {
  }

  // ---------------------------------------------------------------- facts about the tables

  lemma {:induction false} LastPrefixMeaning(pat: seq<byte>, p: nat)
    requires p <= |pat|
    ensures var r := LastPrefix(pat, p);
            || (p < r <= |pat| && PrefixTest(pat, r - 1) && forall c :: p <= c < r - 1 ==> !PrefixTest(pat, c))
            || (r == |pat| - 1 && forall c :: p <= c < |pat| ==> !PrefixTest(pat, c))
    decreases |pat| - p
  {
    if p < |pat| && !PrefixTest(pat, p) {
      LastPrefixMeaning(pat, p + 1);
    }
  }

  lemma {:induction false} RightmostRealignMeaning(pat: seq<byte>, j: nat, n: nat)
    requires j < |pat|
    ensures var r := RightmostRealign(pat, j, n);
            && (r >= 0 ==> Realigns(pat, j, r))
            && (forall p :: 0 <= p < n && r < p ==> !Realigns(pat, j, p))
  {
    if n > 0 && !Realigns(pat, j, n - 1) {
      RightmostRealignMeaning(pat, j, n - 1);
    }
  }

  /** Entry j moves the window so that the matched suffix meets its rightmost earlier occurrence behind
    * a different byte; when there is none, so that the window starts one past the first start at or
    * after j that passes the prefix test (or at |pat| - 1 when no start does).
    */
  lemma Delta2Meaning(pat: seq<byte>, j: nat)
    requires j < |pat|
    ensures var shift := Delta2(pat, j) - (|pat| - 1 - j);
            if exists p :: 0 <= p < |pat| && Realigns(pat, j, p)
            then && Realigns(pat, j, |pat| - 1 - shift)
                 && forall p :: |pat| - 1 - shift < p < |pat| ==> !Realigns(pat, j, p)
            else || (&& j < shift <= |pat| && PrefixTest(pat, shift - 1)
                     && forall c :: j <= c < shift - 1 ==> !PrefixTest(pat, c))
                 || (shift == |pat| - 1 && forall c :: j <= c < |pat| ==> !PrefixTest(pat, c))
  {
    RightmostRealignMeaning(pat, j, |pat| - 1);
    LastPrefixMeaning(pat, j);
    assert !Realigns(pat, j, |pat| - 1);
  }

  /** Every shift moves the window forward, and by at most the pattern's length. */
  lemma Delta2Range(pat: seq<byte>, j: nat)
    requires j < |pat|
    ensures |pat| - 1 - j < Delta2(pat, j) <= (|pat| - 1 - j) + |pat|
  {
    RightmostRealignMeaning(pat, j, |pat| - 1);
    LastPrefixMeaning(pat, j);
    StartPassesTest(pat, 0);
  }

  /** strncmp returns zero if and only if the bytes agree as far as no zero byte has ended both strings. */
  lemma {:induction false} StrncmpIff(a: seq<byte>, b: seq<byte>, n: nat)
    requires n <= |a| && n <= |b|
    ensures StrncmpIsZero(a, b, n) <==> forall k: nat :: k < n ==> AgreesAt(a, b, k)
  {
    if n > 0 {
      StrncmpIff(a[1..], b[1..], n - 1);
      if a[0] == b[0] != 0 {
        AgreeCons(a, b, n);
      } else if a[0] == b[0] {
        forall k: nat | k < n ensures AgreesAt(a, b, k) { assert a[0] == 0; }
      } else {
        assert !AgreesAt(a, b, 0);
      }
    }
  }

  /** Position k agrees unless a zero byte comes before it. */
  ghost predicate AgreesAt(a: seq<byte>, b: seq<byte>, k: nat)
    requires k < |a| && k < |b|
  {
    (forall i :: 0 <= i < k ==> a[i] != 0) ==> a[k] == b[k]
  }

  lemma AgreeCons(a: seq<byte>, b: seq<byte>, n: nat)
    requires 0 < n <= |a| && n <= |b| && a[0] == b[0] != 0
    ensures (forall k: nat :: k < n ==> AgreesAt(a, b, k)) <==>
            (forall k: nat :: k < n - 1 ==> AgreesAt(a[1..], b[1..], k))
  {
    forall k: nat | k < n - 1 ensures AgreesAt(a, b, k + 1) <==> AgreesAt(a[1..], b[1..], k) {
      assert forall i :: 0 <= i < k ==> a[1..][i] == a[i + 1];
      assert (forall i :: 0 <= i < k + 1 ==> a[i] != 0) ==> forall i :: 0 <= i < k ==> a[1..][i] != 0;
      if forall i :: 0 <= i < k ==> a[1..][i] != 0 {
        forall i | 0 <= i < k + 1 ensures a[i] != 0 { assert i > 0 ==> a[1..][i - 1] != 0; }
      }
    }
    if forall k: nat :: k < n - 1 ==> AgreesAt(a[1..], b[1..], k) {
      forall k: nat | k < n ensures AgreesAt(a, b, k) { assert k > 0 ==> AgreesAt(a[1..], b[1..], k - 1); }
    }
    if forall k: nat :: k < n ==> AgreesAt(a, b, k) {
      forall k: nat | k < n - 1 ensures AgreesAt(a[1..], b[1..], k) { assert AgreesAt(a, b, k + 1); }
    }
  }

  /** Bytes that agree make strncmp return zero. */
  lemma {:induction false} EqualIsZero(a: seq<byte>, b: seq<byte>, n: nat)
    requires n <= |a| && n <= |b| && forall k :: 0 <= k < n ==> a[k] == b[k]
    ensures StrncmpIsZero(a, b, n)
  {
    if n > 0 {
      EqualIsZero(a[1..], b[1..], n - 1);
    }
  }

  /** Position 0 and every border start pass the prefix test. */
  lemma StartPassesTest(pat: seq<byte>, q: nat)
    requires q == 0 || Border(pat, q)
    ensures PrefixTest(pat, q)
  {
    forall k | 0 <= k < |pat| - q ensures pat[q..][k] == pat[k] {
      assert q != 0 ==> Echo(pat, k, q);
    }
    EqualIsZero(pat[q..], pat, |pat| - q);
  }

  /** Among all j, the step at p changes exactly the entry its capped suffix length names. */
  lemma RealignAt(pat: seq<byte>, p: nat, len: nat)
    requires p < |pat| - 1 && len <= p && SuffixEndsAt(pat, p, len)
    requires len < p ==> pat[p - len] != pat[|pat| - 1 - len]
    ensures forall j: nat :: j < |pat| ==>
              (Realigns(pat, j, p) <==> j == |pat| - 1 - len && pat[p - len] != pat[j])
  {
    forall j: nat | j < |pat| && Realigns(pat, j, p) ensures j == |pat| - 1 - len {
      var other, d := |pat| - 1 - j, |pat| - 1 - p;
      assert other < len ==> Echo(pat, p - other, d);
      assert len < other ==> Echo(pat, p - len, d);
    }
  }

  /** One step of the second loop, on the whole table. */
  lemma Delta2TableStep(pat: seq<byte>, p: nat, len: nat)
    requires p < |pat| - 1 && len <= p && SuffixEndsAt(pat, p, len)
    requires len < p ==> pat[p - len] != pat[|pat| - 1 - len]
    ensures Delta2Table(pat, p + 1) ==
            if pat[p - len] != pat[|pat| - 1 - len]
            then Delta2Table(pat, p)[|pat| - 1 - len := |pat| - 1 - p + len]
            else Delta2Table(pat, p)
  {
    RealignAt(pat, p, len);
  }

  // ---------------------------------------------------------------- no shift skips an occurrence

  /** The bad-byte entry is the distance from the last byte to the rightmost earlier occurrence of the byte, or the
    * pattern's length when there is none.
    */
  lemma Delta1Meaning(pat: seq<byte>, c: byte)
    requires |pat| >= 1
    ensures var d := Delta1(pat, c);
            && 1 <= d <= |pat|
            && (d < |pat| ==> pat[|pat| - 1 - d] == c)
            && (forall k :: |pat| - 1 - d < k < |pat| - 1 ==> pat[k] != c)
  {
    var last := LastIndexBelow(pat, c, |pat| - 1);
    assert Delta1(pat, c) == |pat| - 1 - last;
  }

  /** The bad-byte shift never passes an occurrence. */
  lemma Delta1NeverSkips(text: seq<byte>, pat: seq<byte>, w: nat, j: nat, s: nat)
    requires 1 <= s && j < |pat| && w + |pat| <= |text|
    requires OccursAt(text, pat, w + s)
    ensures j + Delta1(pat, text[w + j]) <= |pat| - 1 + s
  {
    if s <= j {
      assert text[w + s + (j - s)] == pat[j - s];
    }
  }

  /** The window at w agrees with the pattern behind position j and mismatches at j. */
  ghost predicate MismatchesAt(text: seq<byte>, pat: seq<byte>, w: nat, j: nat) {
    && j < |pat| && w + |pat| <= |text|
    && text[w + j] != pat[j]
    && forall k :: j < k < |pat| ==> text[w + k] == pat[k]
  }

  /** An occurrence at shift s <= j shows an earlier end at which the matched suffix realigns. */
  lemma OccurrenceRealigns(text: seq<byte>, pat: seq<byte>, w: nat, j: nat, s: nat)
    requires 1 <= s <= j && MismatchesAt(text, pat, w, j)
    requires OccursAt(text, pat, w + s)
    ensures Realigns(pat, j, |pat| - 1 - s)
  {
    assert text[w + s + (j - s)] == pat[j - s];
    forall k | j - s < k < |pat| - s ensures Echo(pat, k, s) {
      assert text[w + s + k] == pat[k] && text[w + (s + k)] == pat[s + k];
    }
  }

  /** An occurrence at shift s > j that overlaps the window shows that s starts a border. */
  lemma OccurrenceIsBorder(text: seq<byte>, pat: seq<byte>, w: nat, j: nat, s: nat)
    requires j < s < |pat| && MismatchesAt(text, pat, w, j)
    requires OccursAt(text, pat, w + s)
    ensures Border(pat, s)
  {
    forall k | 0 <= k < |pat| - s ensures Echo(pat, k, s) {
      assert text[w + s + k] == pat[k] && text[w + (s + k)] == pat[s + k];
    }
  }

  /** The good-suffix shift never passes an occurrence, for a safe pattern. */
  lemma Delta2NeverSkips(text: seq<byte>, pat: seq<byte>, w: nat, j: nat, s: nat)
    requires Safe(pat)
    requires 1 <= s && MismatchesAt(text, pat, w, j)
    requires OccursAt(text, pat, w + s)
    ensures j + Delta2(pat, j) <= |pat| - 1 + s
  {
    RightmostRealignMeaning(pat, j, |pat| - 1);
    LastPrefixMeaning(pat, j);
    if s <= j {
      OccurrenceRealigns(text, pat, w, j, s);
    } else if s < |pat| {
      OccurrenceIsBorder(text, pat, w, j, s);
      StartPassesTest(pat, s);
      StartPassesTest(pat, 0);
      assert j >= 1 ==> !Overshoots(pat, j, s);
    }
  }

  // ---------------------------------------------------------------- the theorems

  lemma {:induction false} ScanSound(text: seq<byte>, pat: seq<byte>, t: Tables, end: nat)
    requires 1 <= |pat| <= end + 1 && t.Usable(|pat|)
    ensures Scan(text, pat, t, end).Some? ==> OccursAt(text, pat, Scan(text, pat, t, end).value)
    decreases |text| - end
  {
    if end < |text| {
      var w := end - (|pat| - 1);
      var j := MismatchFrom(text, pat, w, |pat| - 1);
      if j >= 0 {
        ScanSound(text, pat, t, NextEnd(text, pat, t, w, j));
      }
    }
  }

  /** Whatever the pattern, a reported position is a true occurrence. */
  lemma SearchSound(text: seq<byte>, pat: seq<byte>)
    requires |pat| >= 1
    ensures Search(text, pat).Some? ==> OccursAt(text, pat, Search(text, pat).value)
  {
    TablesUsable(pat);
    ScanSound(text, pat, TablesOf(pat), |pat| - 1);
  }

  /** The larger of the two shifts at the window at w passes no later occurrence. */
  ghost predicate SkipsNothing(text: seq<byte>, pat: seq<byte>, t: Tables, w: nat)
    requires w + |pat| <= |text| && t.Usable(|pat|)
  {
    var j := MismatchFrom(text, pat, w, |pat| - 1);
    forall v :: j >= 0 && w < v && OccursAt(text, pat, v) ==>
      NextEnd(text, pat, t, w, j) <= v + |pat| - 1
  }

  lemma ShiftNeverSkips(text: seq<byte>, pat: seq<byte>, w: nat)
    requires Safe(pat) && |pat| >= 1 && w + |pat| <= |text|
    ensures TablesOf(pat).Usable(|pat|) && SkipsNothing(text, pat, TablesOf(pat), w)
  {
    TablesUsable(pat);
    var t, j := TablesOf(pat), MismatchFrom(text, pat, w, |pat| - 1);
    if j >= 0 {
      assert MismatchesAt(text, pat, w, j);
      assert NextEnd(text, pat, t, w, j) == w + j + Max(Delta1(pat, text[w + j]), Delta2(pat, j));
      forall v | w < v && OccursAt(text, pat, v) ensures NextEnd(text, pat, t, w, j) <= v + |pat| - 1 {
        Delta1NeverSkips(text, pat, w, j, v - w);
        Delta2NeverSkips(text, pat, w, j, v - w);
      }
    }
  }

  lemma {:induction false} ScanComplete(text: seq<byte>, pat: seq<byte>, t: Tables, end: nat)
    requires 1 <= |pat| <= end + 1 && t.Usable(|pat|)
    requires forall w: nat | w + |pat| <= |text| :: SkipsNothing(text, pat, t, w)
    requires forall v :: 0 <= v < end - (|pat| - 1) ==> !OccursAt(text, pat, v)
    ensures IsLeftmost(text, pat, Scan(text, pat, t, end))
    decreases |text| - end
  {
    if end < |text| {
      var w := end - (|pat| - 1);
      var j := MismatchFrom(text, pat, w, |pat| - 1);
      if j >= 0 {
        assert text[w + j] != pat[j] && SkipsNothing(text, pat, t, w);
        ScanComplete(text, pat, t, NextEnd(text, pat, t, w, j));
      }
    }
  }

  lemma SearchComplete(text: seq<byte>, pat: seq<byte>)
    requires |pat| >= 1 && Safe(pat)
    ensures IsLeftmost(text, pat, Search(text, pat))
  {
    TablesUsable(pat);
    forall w: nat | w + |pat| <= |text| ensures SkipsNothing(text, pat, TablesOf(pat), w) {
      ShiftNeverSkips(text, pat, w);
    }
    ScanComplete(text, pat, TablesOf(pat), |pat| - 1);
  }

  /** A text on which an unsafe pattern is missed: one window that mismatches at j alone and then the
    * pattern at its own border start q.
    */
  function MissedText(pat: seq<byte>, j: nat, q: nat, c: byte): seq<byte>
    requires j < q < |pat|
  {
    pat[..j] + [c] + pat[j + 1..q] + pat
  }

  lemma MissedTextShape(pat: seq<byte>, j: nat, q: nat, c: byte)
    requires j < q < |pat| && Border(pat, q)
    ensures OccursAt(MissedText(pat, j, q, c), pat, q)
    ensures |MissedText(pat, j, q, c)| == q + |pat|
    ensures c != pat[j] ==> MismatchesAt(MissedText(pat, j, q, c), pat, 0, j)
  {
    var text := MissedText(pat, j, q, c);
    forall k | j < k < |pat| ensures text[k] == pat[k] {
      assert q <= k ==> Echo(pat, k - q, q);
    }
  }

  /** An unsafe position shifts one past the border start. */
  lemma UnsafeShift(pat: seq<byte>, j: nat, q: nat)
    requires 1 <= j < q < |pat| && Overshoots(pat, j, q)
    ensures Delta2(pat, j) == (|pat| - 1 - j) + q + 1
  {
    StartPassesTest(pat, q);
    LastPrefixMeaning(pat, j);
    RightmostRealignMeaning(pat, j, |pat| - 1);
  }

  /** A first window that mismatches at j and is shifted past the end of the text is the whole scan. */
  lemma ScanGivesUp(text: seq<byte>, pat: seq<byte>, t: Tables, j: nat)
    requires j < |pat| <= |text| && t.Usable(|pat|)
    requires MismatchesAt(text, pat, 0, j)
    requires j + t.delta2[j] >= |text|
    ensures Scan(text, pat, t, |pat| - 1) == None
  {
    assert MismatchFrom(text, pat, 0, |pat| - 1) == j;
  }

  lemma UnsafeMisses(pat: seq<byte>, j: nat, q: nat, c: byte)
    requires 1 <= j < q < |pat| && Overshoots(pat, j, q) && c != pat[j]
    ensures OccursAt(MissedText(pat, j, q, c), pat, q)
    ensures Search(MissedText(pat, j, q, c), pat) == None
  {
    MissedTextShape(pat, j, q, c);
    UnsafeShift(pat, j, q);
    TablesUsable(pat);
    ScanGivesUp(MissedText(pat, j, q, c), pat, TablesOf(pat), j);
  }

  /** The search finds the leftmost occurrence in every text if and only if the pattern is safe. */
  lemma SearchIsCompleteIffSafe(pat: seq<byte>)
    requires |pat| >= 1
    ensures (forall text :: IsLeftmost(text, pat, Search(text, pat))) <==> Safe(pat)
  {
    if Safe(pat) {
      forall text ensures IsLeftmost(text, pat, Search(text, pat)) {
        SearchComplete(text, pat);
      }
    } else {
      var j: nat, q: nat :| 1 <= j < q < |pat| && Overshoots(pat, j, q);
      var c: byte := if pat[j] == 0 then 1 else 0;
      UnsafeMisses(pat, j, q, c);
      assert !IsLeftmost(MissedText(pat, j, q, c), pat, Search(MissedText(pat, j, q, c), pat));
    }
  }

  /** A pattern without a proper border is safe, so the search is complete for it. */
  lemma UnborderedIsComplete(text: seq<byte>, pat: seq<byte>)
    requires |pat| >= 1 && forall q :: !Border(pat, q)
    ensures IsLeftmost(text, pat, Search(text, pat))
  {
    SearchComplete(text, pat);
  }

  // ---------------------------------------------------------------- the caller's literal, and a miss

  function Bytes(s: string): (b: seq<byte>)
    requires forall k :: 0 <= k < |s| ==> s[k] as int < 256
    ensures |b| == |s| && forall k :: 0 <= k < |s| ==> b[k] as int == s[k] as int
  {
    seq(|s|, k requires 0 <= k < |s| => s[k] as int as byte)
  }

  const BASEBAND_VER_STR_START := "QC_IMAGE_VERSION_STRING=MPSS.AT."
  const BASEBAND_VER_STR_START_LEN := 32

  /** The only literal the updater searches for is found at its first occurrence in every image. */
  lemma BasebandLiteralIsFound(image: seq<byte>)
    ensures |BASEBAND_VER_STR_START| == BASEBAND_VER_STR_START_LEN
    ensures IsLeftmost(image, Bytes(BASEBAND_VER_STR_START), Search(image, Bytes(BASEBAND_VER_STR_START)))
  {
    var pat := Bytes(BASEBAND_VER_STR_START);
    assert forall k :: 1 <= k < |pat| ==> BASEBAND_VER_STR_START[k] != 'Q';
    forall q ensures !Border(pat, q) {
      assert 0 < q < |pat| ==> !Echo(pat, 0, q);
    }
    UnborderedIsComplete(image, pat);
  }

  /** "aba" occurs in "acaba" at 2, and the search does not find it. */
  lemma BorderedPatternIsMissed(text: seq<byte>, pat: seq<byte>)
    requires text == Bytes("acaba") && pat == Bytes("aba")
    ensures OccursAt(text, pat, 2) && Search(text, pat) == None
  {
    var c := 'c' as int as byte;
    assert Echo(pat, 0, 2);
    assert !Echo(pat, 1, 1);
    assert pat[1..][0] != pat[0];
    assert Overshoots(pat, 1, 2);
    assert text == MissedText(pat, 1, 2, c);
    UnsafeMisses(pat, 1, 2, c);
  }
}
