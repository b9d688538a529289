/** The comparator of reorder-libs.py and the per-section sort built on it.
  *
  * `Compare` is the comparator itself. It is explained by a sort key: a line's directory, then a code
  * above every character, then the file name. On every set of lines that `Consistent` accepts, the
  * comparator is exactly the lexicographic order of those keys; on every other set it has a cycle.
  */
module PathOrder {

  // ---------------------------------------------------------------- strcoll in the C locale

  function Codes(s: string): (c: seq<int>)
    ensures |c| == |s| && forall i :: 0 <= i < |s| ==> c[i] == s[i] as int
  {
    seq(|s|, i requires 0 <= i < |s| => s[i] as int)
  }

  /** Lexicographic comparison of code sequences: -1, 0 or 1. */
  function Lex(a: seq<int>, b: seq<int>): (r: int)
    ensures -1 <= r <= 1
  {
    if a == [] then (if b == [] then 0 else -1)
    else if b == [] then 1
    else if a[0] < b[0] then -1
    else if b[0] < a[0] then 1
    else Lex(a[1..], b[1..])
  }

  function Strcoll(a: string, b: string): int { Lex(Codes(a), Codes(b)) }

  // ---------------------------------------------------------------- the comparator

  function RemovePrefix(s: string): string {
    if s != "" && s[0] == '-' then s[1..] else s
  }

  /** The index of the last '/', or -1. */
  function LastSlash(s: string): (r: int)
    ensures -1 <= r < |s|
    ensures r >= 0 ==> s[r] == '/'
    ensures forall i :: r < i < |s| ==> s[i] != '/'
  {
    if s == "" then -1 else if s[|s| - 1] == '/' then |s| - 1 else LastSlash(s[..|s| - 1])
  }

  /** s.rsplit("/", 1)[0] + "/" */
  function Dir(s: string): string {
    (if LastSlash(s) >= 0 then s[..LastSlash(s)] else s) + "/"
  }

  /** strcoll_extract_utils */
  function Compare(string1: string, string2: string): int {
    if string1 == "" || string2 == "" then Strcoll(string1, string2) else
      var s1, s2 := RemovePrefix(string1), RemovePrefix(string2);
      if '/' !in s1 && '/' !in s2 then Strcoll(s1, s2) else
        var d1, d2 := Dir(s1), Dir(s2);
        if d1 == d2 then Strcoll(s1, s2)
        else if d2 <= d1 then -1
        else if d1 <= d2 then 1
        else Strcoll(s1, s2)
  }

  // ---------------------------------------------------------------- when it is an order

  /** p lies in a proper subdirectory of the directory named x. */
  predicate DeepUnder(p: string, x: string) {
    '/' in p && x + "/" < Dir(p)
  }

  /** q continues x with a character below '/'. */
  predicate CutsBelow(q: string, x: string) {
    x < q && q[|x|] < '/'
  }

  ghost predicate HasDeep(lines: set<string>, x: string) {
    exists p :: p in lines && DeepUnder(RemovePrefix(p), x)
  }

  ghost predicate HasCut(lines: set<string>, x: string) {
    exists q :: q in lines && CutsBelow(RemovePrefix(q), x)
  }

  /** No line without a '/' names a directory that has subdirectories on the list while another line
    * continues that name with a character below '/'.
    */
  ghost predicate Consistent(lines: set<string>) {
    forall x :: x in lines && x != "" && '/' !in RemovePrefix(x) ==>
      !(HasDeep(lines, RemovePrefix(x)) && HasCut(lines, RemovePrefix(x)))
  }

  ghost predicate TransitiveOn(lines: set<string>) {
    forall a, b, c :: a in lines && b in lines && c in lines && Compare(a, b) <= 0 && Compare(b, c) <= 0 ==>
      Compare(a, c) <= 0
  }

  // ---------------------------------------------------------------- sort keys

  const SLASH := '/' as int
  // Two codes above every character: a directory's own name, and its own files.
  const NAMED := 0x110000
  const OWN := 0x110001

  /** The key of a line without its '-': deep says whether the list has lines deep under it. */
  function Key(s: string, deep: bool): seq<int> {
    if '/' in s then Codes(Dir(s)) + [OWN] + Codes(s[LastSlash(s) + 1..])
    else if deep then Codes(s + "/") + [NAMED]
    else Codes(s)
  }

  ghost function LineKey(lines: set<string>, line: string): seq<int> {
    if line == "" then [] else [1] + Key(RemovePrefix(line), HasDeep(lines, RemovePrefix(line)))
  }

  // ---------------------------------------------------------------- the lexicographic order

  lemma {:induction false} LexAntisymmetric(a: seq<int>, b: seq<int>)
    ensures Lex(a, b) == -Lex(b, a)
    ensures Lex(a, b) == 0 <==> a == b
  {
    if a != [] && b != [] {
      LexAntisymmetric(a[1..], b[1..]);
      if a[0] == b[0] && a[1..] == b[1..] {
        assert a == [a[0]] + a[1..] == [b[0]] + b[1..] == b;
      }
    }
  }

  lemma {:induction false} LexTransitive(a: seq<int>, b: seq<int>, c: seq<int>)
    requires Lex(a, b) <= 0 && Lex(b, c) <= 0
    ensures Lex(a, c) <= 0
  {
    if a != [] && b != [] && c != [] && a[0] == b[0] == c[0] {
      LexTransitive(a[1..], b[1..], c[1..]);
    }
  }

  /** A common prefix decides nothing. */
  lemma {:induction false} LexDrop(a: seq<int>, b: seq<int>, k: nat)
    requires k <= |a| && k <= |b| && forall i :: 0 <= i < k ==> a[i] == b[i]
    ensures Lex(a, b) == Lex(a[k..], b[k..])
  {
    if k > 0 {
      LexDrop(a[1..], b[1..], k - 1);
      assert a[1..][k - 1..] == a[k..] && b[1..][k - 1..] == b[k..];
    } else {
      assert a[0..] == a && b[0..] == b;
    }
  }

  /** The first difference decides. */
  lemma LexAt(a: seq<int>, b: seq<int>, k: nat)
    requires k < |a| && k < |b| && a[k] != b[k] && forall i :: 0 <= i < k ==> a[i] == b[i]
    ensures Lex(a, b) == if a[k] < b[k] then -1 else 1
  {
    LexDrop(a, b, k);
  }

  /** A proper prefix comes first. */
  lemma LexPrefix(a: seq<int>, b: seq<int>)
    requires |a| < |b| && forall i :: 0 <= i < |a| ==> a[i] == b[i]
    ensures Lex(a, b) == -1
  {
    LexDrop(a, b, |a|);
  }

  /** Either one of two sequences is a prefix of the other or there is a first difference. */
  lemma FirstDifference(a: string, b: string) returns (k: nat)
    ensures k <= |a| && k <= |b| && forall i :: 0 <= i < k ==> a[i] == b[i]
    ensures k == |a| || k == |b| || a[k] != b[k]
  {
    k := 0;
    while k < |a| && k < |b| && a[k] == b[k]
      invariant k <= |a| && k <= |b| && forall i :: 0 <= i < k ==> a[i] == b[i]
    {
      k := k + 1;
    }
  }

  // ---------------------------------------------------------------- the comparator follows the keys

  lemma DirShape(s: string)
    ensures '/' in s ==> Dir(s) == s[..|Dir(s)|] && |Dir(s)| == LastSlash(s) + 1
    ensures '/' in s <==> LastSlash(s) >= 0
    ensures |Dir(s)| >= 1 && Dir(s)[|Dir(s)| - 1] == '/'
  {
  }

  /** The key of a line with a '/': its characters up to the directory's end, then OWN. */
  lemma SlashedKey(s: string, deep: bool)
    requires '/' in s
    ensures |Dir(s)| <= |s| && |Key(s, deep)| == |s| + 1 && Key(s, deep)[|Dir(s)|] == OWN
    ensures forall i :: 0 <= i < |Dir(s)| ==> Key(s, deep)[i] == s[i] as int
  {
    DirShape(s);
  }

  lemma SlashedKeyTail(s: string, deep: bool)
    requires '/' in s
    ensures |Dir(s)| < |Key(s, deep)| && |Dir(s)| <= |s|
    ensures Key(s, deep)[|Dir(s)| + 1..] == Codes(s[|Dir(s)|..]) == Codes(s)[|Dir(s)|..]
  {
    DirShape(s);
  }

  lemma SameDirectory(a: string, b: string, da: bool, db: bool)
    requires '/' in a && '/' in b && Dir(a) == Dir(b)
    ensures Lex(Key(a, da), Key(b, db)) == Strcoll(a, b)
  {
    SlashedKeyTail(a, da); SlashedKeyTail(b, db);
    SameDirectoryStrings(a, b);
    SameDirectoryKeys(a, b, da, db);
  }

  /** Behind a common directory the file names decide, in the lines and in the keys. */
  lemma SameDirectoryStrings(a: string, b: string)
    requires '/' in a && '/' in b && Dir(a) == Dir(b)
    ensures |Dir(a)| <= |a| && |Dir(a)| <= |b|
    ensures Strcoll(a, b) == Lex(Codes(a)[|Dir(a)|..], Codes(b)[|Dir(a)|..])
  {
    var n := |Dir(a)|;
    DirShape(a); DirShape(b);
    forall i | 0 <= i < n ensures a[i] == b[i] {
      assert a[i] == Dir(a)[i] == Dir(b)[i] == b[i];
    }
    LexDrop(Codes(a), Codes(b), n);
  }

  lemma SameDirectoryKeys(a: string, b: string, da: bool, db: bool)
    requires '/' in a && '/' in b && Dir(a) == Dir(b)
    ensures |Dir(a)| < |Key(a, da)| && |Dir(a)| < |Key(b, db)|
    ensures Lex(Key(a, da), Key(b, db)) == Lex(Key(a, da)[|Dir(a)| + 1..], Key(b, db)[|Dir(a)| + 1..])
  {
    SlashedKeyTail(a, da); SlashedKeyTail(b, db);
    LexDrop(Key(a, da), Key(b, db), |Dir(a)| + 1);
  }

  lemma OtherDirectory(a: string, b: string, da: bool, db: bool)
    requires '/' in a && '/' in b && Dir(a) != Dir(b)
    ensures Lex(Key(a, da), Key(b, db)) ==
            if Dir(b) <= Dir(a) then -1
            else if Dir(a) <= Dir(b) then 1
            else Strcoll(a, b)
  {
    DirShape(a); DirShape(b);
    var k := FirstDifference(Dir(a), Dir(b));
    assert forall i :: 0 <= i < |Dir(a)| ==> a[i] == Dir(a)[i];
    assert forall i :: 0 <= i < |Dir(b)| ==> b[i] == Dir(b)[i];
    SlashedKey(a, da);
    SlashedKey(b, db);
    LexAt(Key(a, da), Key(b, db), k);
    if k < |Dir(a)| && k < |Dir(b)| {
      LexAt(Codes(a), Codes(b), k);
    }
  }

  lemma BothSlashed(a: string, b: string, da: bool, db: bool)
    requires '/' in a && '/' in b
    ensures Lex(Key(a, da), Key(b, db)) ==
            if Dir(a) == Dir(b) then Strcoll(a, b)
            else if Dir(b) <= Dir(a) then -1
            else if Dir(a) <= Dir(b) then 1
            else Strcoll(a, b)
  {
    if Dir(a) == Dir(b) {
      SameDirectory(a, b, da, db);
    } else {
      OtherDirectory(a, b, da, db);
    }
  }

  /** The key of a line without '/' starts with its characters; a deep one goes on with '/' and NAMED. */
  lemma SlashlessKey(s: string, deep: bool)
    requires '/' !in s
    ensures |Key(s, deep)| == if deep then |s| + 2 else |s|
    ensures forall i :: 0 <= i < |s| ==> Key(s, deep)[i] == s[i] as int
    ensures deep ==> Key(s, deep)[|s|] == SLASH && Key(s, deep)[|s| + 1] == NAMED
  {
  }

  lemma SlashlessPrefix(a: string, b: string, da: bool, db: bool)
    requires '/' !in a && '/' !in b && a < b
    requires da ==> !CutsBelow(b, a)
    ensures Lex(Key(a, da), Key(b, db)) == -1 && Strcoll(a, b) == -1
  {
    SlashlessKey(a, da);
    SlashlessKey(b, db);
    LexPrefix(Codes(a), Codes(b));
    assert b[|a|] in b;
    if da { LexAt(Key(a, da), Key(b, db), |a|); } else { LexPrefix(Key(a, da), Key(b, db)); }
  }

  lemma BothSlashless(a: string, b: string, da: bool, db: bool)
    requires '/' !in a && '/' !in b
    requires a == b ==> da == db
    requires da ==> !CutsBelow(b, a)
    requires db ==> !CutsBelow(a, b)
    ensures Lex(Key(a, da), Key(b, db)) == Strcoll(a, b)
  {
    LexAntisymmetric(Key(a, da), Key(b, db));
    LexAntisymmetric(Codes(a), Codes(b));
    if a < b {
      SlashlessPrefix(a, b, da, db);
    } else if b < a {
      SlashlessPrefix(b, a, db, da);
    } else if a != b {
      var k := FirstDifference(a, b);
      SlashlessKey(a, da);
      SlashlessKey(b, db);
      LexAt(Codes(a), Codes(b), k);
      LexAt(Key(a, da), Key(b, db), k);
    }
  }

  /** Where a line without '/' and one with it first differ. */
  lemma MixedShape(a: string, b: string) returns (k: nat)
    requires '/' !in a && '/' in b
    ensures k <= |a| && k < |Dir(b)| <= |b| && forall i :: 0 <= i < k ==> a[i] == b[i]
    ensures k < |a| ==> a[k] != b[k]
    ensures forall i :: 0 <= i < |Dir(b)| ==> Dir(b)[i] == b[i]
    ensures Dir(a) == a + "/" && (Dir(b) <= Dir(a) ==> Dir(a) == Dir(b))
    ensures Dir(a) <= Dir(b) <==> k == |a| && b[k] == '/'
  {
    DirShape(a); DirShape(b);
    k := FirstDifference(a, b);
    assert forall i :: 0 <= i < k ==> a[i] in a;
    if Dir(a) <= Dir(b) {
      forall i | 0 <= i < |a| ensures a[i] == b[i] {
        assert Dir(a)[i] == Dir(b)[i];
      }
      assert Dir(a)[|a|] == Dir(b)[|a|];
    }
  }

  /** b lies under the directory a names. */
  lemma MixedUnder(a: string, b: string, da: bool, db: bool)
    requires '/' !in a && '/' in b && Dir(a) <= Dir(b)
    requires DeepUnder(b, a) ==> da
    ensures Lex(Key(a, da), Key(b, db)) == if Dir(a) != Dir(b) then 1 else -1
    ensures Strcoll(a, b) == -1
  {
    SlashedKey(b, db);
    SlashlessKey(a, da);
    var k := MixedShape(a, b);
    var ka, kb := Key(a, da), Key(b, db);
    LexPrefix(Codes(a), Codes(b));
    if da {
      assert kb[k] == SLASH;
      LexAt(ka, kb, k + 1);
    } else {
      LexPrefix(ka, kb);
    }
  }

  /** b does not lie under the directory a names. */
  lemma MixedApart(a: string, b: string, da: bool, db: bool)
    requires '/' !in a && '/' in b && !(Dir(a) <= Dir(b))
    requires da ==> !CutsBelow(b, a)
    ensures Lex(Key(a, da), Key(b, db)) == Strcoll(a, b)
  {
    SlashedKey(b, db);
    SlashlessKey(a, da);
    var k := MixedShape(a, b);
    var ka, kb := Key(a, da), Key(b, db);
    if k < |a| {
      LexAt(Codes(a), Codes(b), k);
      LexAt(ka, kb, k);
    } else {
      LexPrefix(Codes(a), Codes(b));
      assert a < b;
      if da { LexAt(ka, kb, k); } else { LexPrefix(ka, kb); }
    }
  }

  lemma Mixed(a: string, b: string, da: bool, db: bool)
    requires '/' !in a && '/' in b
    requires DeepUnder(b, a) ==> da
    requires da ==> !CutsBelow(b, a)
    ensures Lex(Key(a, da), Key(b, db)) == if Dir(a) != Dir(b) && Dir(a) <= Dir(b) then 1 else Strcoll(a, b)
    ensures Dir(a) != Dir(b) ==> !(Dir(b) <= Dir(a))
  {
    var k := MixedShape(a, b);
    if Dir(a) <= Dir(b) {
      MixedUnder(a, b, da, db);
    } else {
      MixedApart(a, b, da, db);
    }
  }

  lemma CompareAntisymmetric(a: string, b: string)
    ensures Compare(a, b) == -Compare(b, a)
  {
    LexAntisymmetric(Codes(a), Codes(b));
    LexAntisymmetric(Codes(RemovePrefix(a)), Codes(RemovePrefix(b)));
  }

  /** On a consistent set of lines the comparator is the lexicographic order of the sort keys. */
  lemma CompareIsKeyOrder(lines: set<string>, a: string, b: string)
    requires Consistent(lines) && a in lines && b in lines
    ensures Compare(a, b) == Lex(LineKey(lines, a), LineKey(lines, b))
  {
    if a != "" && b != "" {
      var s1, s2 := RemovePrefix(a), RemovePrefix(b);
      var d1, d2 := HasDeep(lines, s1), HasDeep(lines, s2);
      LexDrop(LineKey(lines, a), LineKey(lines, b), 1);
      assert LineKey(lines, a)[1..] == Key(s1, d1) && LineKey(lines, b)[1..] == Key(s2, d2);
      if '/' in s1 && '/' in s2 {
        BothSlashed(s1, s2, d1, d2);
      } else if '/' !in s1 && '/' !in s2 {
        BothSlashless(s1, s2, d1, d2);
      } else if '/' in s2 {
        Mixed(s1, s2, d1, d2);
      } else {
        Mixed(s2, s1, d2, d1);
        LexAntisymmetric(Key(s1, d1), Key(s2, d2));
        CompareAntisymmetric(a, b);
      }
    }
  }

  /** A directory name, a line deep under it and a line that cuts below '/' form a cycle. */
  lemma CycleWitness(x: string, p: string, q: string)
    requires x != "" && '/' !in RemovePrefix(x)
    requires DeepUnder(RemovePrefix(p), RemovePrefix(x)) && CutsBelow(RemovePrefix(q), RemovePrefix(x))
    ensures Compare(x, q) == -1 && Compare(q, p) == -1 && Compare(p, x) == -1
  {
    var a, b, c := RemovePrefix(x), RemovePrefix(p), RemovePrefix(q);
    var k := MixedShape(a, b);
    assert p != "" && q != "" && k == |a|;
    CompareAntisymmetric(p, x);
    LexPrefix(Codes(a), Codes(c));
    LexAt(Codes(c), Codes(b), k);
    if '/' in c {
      var m := MixedShape(a, c);
      assert Dir(c)[k] != Dir(b)[k];
    } else {
      DirShape(c);
      assert Dir(c)[k] != Dir(b)[k];
    }
  }

  // ---------------------------------------------------------------- the theorems

  /** The comparator is transitive on a set of lines if and only if the set is consistent. */
  lemma TransitiveIffConsistent(lines: set<string>)
    ensures TransitiveOn(lines) <==> Consistent(lines)
  {
    if Consistent(lines) {
      forall a, b, c | a in lines && b in lines && c in lines && Compare(a, b) <= 0 && Compare(b, c) <= 0
        ensures Compare(a, c) <= 0
      {
        CompareIsKeyOrder(lines, a, b);
        CompareIsKeyOrder(lines, b, c);
        CompareIsKeyOrder(lines, a, c);
        LexTransitive(LineKey(lines, a), LineKey(lines, b), LineKey(lines, c));
      }
    } else {
      var x :| x in lines && x != "" && '/' !in RemovePrefix(x)
               && HasDeep(lines, RemovePrefix(x)) && HasCut(lines, RemovePrefix(x));
      var p :| p in lines && DeepUnder(RemovePrefix(p), RemovePrefix(x));
      var q :| q in lines && CutsBelow(RemovePrefix(q), RemovePrefix(x));
      CycleWitness(x, p, q);
      CompareAntisymmetric(x, p);
    }
  }

  /** Lines that all contain a '/' are consistent. */
  lemma SlashedLinesAreConsistent(lines: set<string>)
    requires forall s :: s in lines ==> '/' in s
    ensures Consistent(lines)
  {
    forall s | s in lines ensures '/' in RemovePrefix(s) {
      SlashSurvives(s);
    }
  }

  /** A line that a leading '-' marks as a build target, and the line without it. */
  ghost predicate IsMarked(marked: string, plain: string) {
    plain != "" && plain[0] != '-' && marked == "-" + plain
  }

  /** The marker is ignored, on either side. */
  lemma MarkerIsIgnored(marked: string, plain: string, b: string)
    requires IsMarked(marked, plain) && b != ""
    ensures Compare(marked, b) == Compare(plain, b) && Compare(b, marked) == Compare(b, plain)
  {
    assert marked[1..] == plain;
  }

  /** The comparator only ties a line with itself and with its marked form. */
  lemma TiesOnlyMarkers(a: string, b: string)
    ensures Compare(a, b) == 0 <==>
            a == b || IsMarked(a, b) || IsMarked(b, a)
  {
    LexAntisymmetric(Codes(a), Codes(b));
    LexAntisymmetric(Codes(RemovePrefix(a)), Codes(RemovePrefix(b)));
    CodesInjective(a, b);
    CodesInjective(RemovePrefix(a), RemovePrefix(b));
    if a != "" && b != "" { SameWithoutMarker(a, b); }
  }

  lemma SameWithoutMarker(a: string, b: string)
    requires a != "" && b != ""
    ensures RemovePrefix(a) == RemovePrefix(b) <==> a == b || IsMarked(a, b) || IsMarked(b, a)
  {
    assert a[0] == '-' ==> a == "-" + a[1..];
    assert b[0] == '-' ==> b == "-" + b[1..];
  }

  lemma CodesInjective(a: string, b: string)
    ensures Codes(a) == Codes(b) ==> a == b
  {
    if Codes(a) == Codes(b) {
      forall i | 0 <= i < |a| ensures a[i] == b[i] {
        assert Codes(a)[i] == Codes(b)[i];
      }
    }
  }

  /** "lib", "lib-b", "lib/a/x": three lines in a cycle. */
  lemma SlashlessCycle()
    ensures Compare("lib", "lib-b") == -1 && Compare("lib-b", "lib/a/x") == -1 && Compare("lib/a/x", "lib") == -1
  {
    assert LastSlash("lib/a/x") == 5;
    assert Dir("lib/a/x") == "lib/a/";
    assert "lib" + "/" < "lib/a/" by { assert "lib/a/"[..4] == "lib/"; }
    CycleWitness("lib", "lib/a/x", "lib-b");
  }

  // ---------------------------------------------------------------- the sort of one section

  /** The stable sorted arrangement the library's list.sort(key=cmp_to_key(cmp)) returns. */
  function Sort<T>(cmp: (T, T) -> int, items: seq<T>): seq<T> {
    if items == [] then [] else Insert(cmp, items[0], Sort(cmp, items[1..]))
  }

  function Insert<T>(cmp: (T, T) -> int, x: T, sorted: seq<T>): seq<T> {
    if sorted == [] || cmp(x, sorted[0]) <= 0 then [x] + sorted
    else [sorted[0]] + Insert(cmp, x, sorted[1..])
  }

  ghost predicate Sorted<T>(cmp: (T, T) -> int, items: seq<T>) {
    forall i, j :: 0 <= i < j < |items| ==> cmp(items[i], items[j]) <= 0
  }

  /** cmp is a total, transitive comparison of the members of all. */
  ghost predicate IsOrderOn<T(!new)>(cmp: (T, T) -> int, all: set<T>) {
    && (forall a, b :: a in all && b in all ==> cmp(a, b) <= 0 || cmp(b, a) <= 0)
    && (forall a, b, c :: a in all && b in all && c in all && cmp(a, b) <= 0 && cmp(b, c) <= 0 ==> cmp(a, c) <= 0)
  }

  lemma SortedCons<T>(cmp: (T, T) -> int, x: T, rest: seq<T>)
    requires Sorted(cmp, rest) && forall y :: y in rest ==> cmp(x, y) <= 0
    ensures Sorted(cmp, [x] + rest)
  {
  }

  lemma SortedHead<T(!new)>(cmp: (T, T) -> int, sorted: seq<T>, all: set<T>)
    requires IsOrderOn(cmp, all) && sorted != [] && Sorted(cmp, sorted) && forall y :: y in sorted ==> y in all
    ensures Sorted(cmp, sorted[1..]) && forall y :: y in sorted ==> cmp(sorted[0], y) <= 0
  {
  }

  lemma {:induction false} InsertContents<T(!new)>(cmp: (T, T) -> int, x: T, sorted: seq<T>)
    ensures multiset(Insert(cmp, x, sorted)) == multiset{x} + multiset(sorted)
  {
    if sorted != [] && !(cmp(x, sorted[0]) <= 0) {
      InsertContents(cmp, x, sorted[1..]);
      assert sorted == [sorted[0]] + sorted[1..];
    }
  }

  lemma {:induction false} InsertKeepsOrder<T(!new)>(cmp: (T, T) -> int, x: T, sorted: seq<T>, all: set<T>)
    requires IsOrderOn(cmp, all) && x in all && forall y :: y in sorted ==> y in all
    requires Sorted(cmp, sorted)
    ensures Sorted(cmp, Insert(cmp, x, sorted))
  {
    if sorted != [] {
      SortedHead(cmp, sorted, all);
      var first, tail := sorted[0], sorted[1..];
      if cmp(x, first) <= 0 {
        forall y | y in sorted ensures cmp(x, y) <= 0 {
          assert cmp(first, y) <= 0;
        }
        SortedCons(cmp, x, sorted);
      } else {
        InsertKeepsOrder(cmp, x, tail, all);
        forall y | y in Insert(cmp, x, tail) ensures cmp(first, y) <= 0 {
          InsertContents(cmp, x, tail);
          assert y in multiset(Insert(cmp, x, tail));
          assert y == x || y in tail;
        }
        SortedCons(cmp, first, Insert(cmp, x, tail));
      }
    }
  }

  /** The members of a list that tie with x, in their order. */
  function Ties<T>(cmp: (T, T) -> int, x: T, items: seq<T>): seq<T> {
    if items == [] then []
    else (if IsTie(cmp, x, items[0]) then [items[0]] else []) + Ties(cmp, x, items[1..])
  }

  predicate IsTie<T>(cmp: (T, T) -> int, x: T, y: T) {
    cmp(x, y) <= 0 && cmp(y, x) <= 0
  }

  lemma TiesCons<T>(cmp: (T, T) -> int, x: T, y: T, rest: seq<T>)
    ensures Ties(cmp, x, [y] + rest) == (if IsTie(cmp, x, y) then [y] else []) + Ties(cmp, x, rest)
  {
    assert ([y] + rest)[1..] == rest;
  }

  /** What y sorts behind does not tie with what y ties with. */
  lemma TiesApart<T(!new)>(cmp: (T, T) -> int, x: T, y: T, z: T, all: set<T>)
    requires IsOrderOn(cmp, all) && x in all && y in all && z in all
    requires cmp(y, z) > 0
    ensures !(IsTie(cmp, x, y) && IsTie(cmp, x, z))
  {
  }

  lemma {:induction false} InsertIsStable<T(!new)>(cmp: (T, T) -> int, y: T, sorted: seq<T>, all: set<T>, x: T)
    requires IsOrderOn(cmp, all) && x in all && y in all && forall z :: z in sorted ==> z in all
    ensures Ties(cmp, x, Insert(cmp, y, sorted)) ==
            (if IsTie(cmp, x, y) then [y] else []) + Ties(cmp, x, sorted)
  {
    if sorted == [] || cmp(y, sorted[0]) <= 0 {
      TiesCons(cmp, x, y, sorted);
    } else {
      InsertIsStable(cmp, y, sorted[1..], all, x);
      TiesCons(cmp, x, sorted[0], Insert(cmp, y, sorted[1..]));
      TiesApart(cmp, x, y, sorted[0], all);
    }
  }

  /** Items that tie keep their order. */
  lemma {:induction false} SortIsStable<T(!new)>(cmp: (T, T) -> int, items: seq<T>, all: set<T>, x: T)
    requires IsOrderOn(cmp, all) && x in all && forall y :: y in items ==> y in all
    ensures Ties(cmp, x, Sort(cmp, items)) == Ties(cmp, x, items)
  {
    if items != [] {
      SortIsStable(cmp, items[1..], all, x);
      SortSorts(cmp, items[1..], all);
      forall y | y in Sort(cmp, items[1..]) ensures y in all {
        assert y in multiset(items[1..]);
      }
      InsertIsStable(cmp, items[0], Sort(cmp, items[1..]), all, x);
    }
  }

  lemma {:induction false} TiesContain<T(!new)>(cmp: (T, T) -> int, x: T, items: seq<T>)
    ensures forall y :: y in Ties(cmp, x, items) <==> y in items && IsTie(cmp, x, y)
  {
    if items != [] {
      TiesContain(cmp, x, items[1..]);
      assert items == [items[0]] + items[1..];
    }
  }

  /** Two sorted arrangements with the same ties begin alike. */
  lemma SameFirst<T(!new)>(cmp: (T, T) -> int, a: seq<T>, b: seq<T>, all: set<T>)
    requires IsOrderOn(cmp, all) && (forall y :: y in a ==> y in all) && (forall y :: y in b ==> y in all)
    requires Sorted(cmp, a) && Sorted(cmp, b) && forall x :: x in all ==> Ties(cmp, x, a) == Ties(cmp, x, b)
    requires a != [] && b != []
    ensures a[0] == b[0]
  {
    TiesContain(cmp, a[0], b);
    TiesContain(cmp, b[0], a);
    assert IsTie(cmp, a[0], a[0]) && IsTie(cmp, b[0], b[0]);
    assert a[0] in Ties(cmp, a[0], a) && b[0] in Ties(cmp, b[0], b);
    SortedHead(cmp, a, all);
    SortedHead(cmp, b, all);
    assert IsTie(cmp, a[0], b[0]);
    assert Ties(cmp, a[0], a)[0] == a[0] && Ties(cmp, a[0], b)[0] == b[0];
  }

  /** Equal ties of two lists that begin alike are equal ties of the rest. */
  lemma SameTies<T(!new)>(cmp: (T, T) -> int, x: T, a: seq<T>, b: seq<T>)
    requires a != [] && b != [] && a[0] == b[0] && Ties(cmp, x, a) == Ties(cmp, x, b)
    ensures Ties(cmp, x, a[1..]) == Ties(cmp, x, b[1..])
  {
    var first := if IsTie(cmp, x, a[0]) then [a[0]] else [];
    assert Ties(cmp, x, a)[|first|..] == Ties(cmp, x, a[1..]);
    assert Ties(cmp, x, b)[|first|..] == Ties(cmp, x, b[1..]);
  }

  /** Lists with the same ties are both empty or neither. */
  lemma SameEmptiness<T(!new)>(cmp: (T, T) -> int, a: seq<T>, b: seq<T>, all: set<T>)
    requires IsOrderOn(cmp, all) && (forall y :: y in a ==> y in all)
    requires forall x :: x in all ==> Ties(cmp, x, a) == Ties(cmp, x, b)
    ensures a != [] ==> b != []
  {
    if a != [] {
      assert IsTie(cmp, a[0], a[0]);
      TiesContain(cmp, a[0], a);
      assert a[0] in Ties(cmp, a[0], b);
    }
  }

  /** Two sorted arrangements of members of all, with the same ties. */
  ghost predicate AreAlike<T(!new)>(cmp: (T, T) -> int, a: seq<T>, b: seq<T>, all: set<T>) {
    && (forall y :: y in a ==> y in all) && (forall y :: y in b ==> y in all)
    && Sorted(cmp, a) && Sorted(cmp, b)
    && forall x :: x in all ==> Ties(cmp, x, a) == Ties(cmp, x, b)
  }

  lemma TailsAreAlike<T(!new)>(cmp: (T, T) -> int, a: seq<T>, b: seq<T>, all: set<T>)
    requires AreAlike(cmp, a, b, all) && a != [] && b != [] && a[0] == b[0]
    ensures AreAlike(cmp, a[1..], b[1..], all)
  {
    forall x | x in all ensures Ties(cmp, x, a[1..]) == Ties(cmp, x, b[1..]) {
      SameTies(cmp, x, a, b);
    }
  }

  lemma SameHeadAndTail<T>(a: seq<T>, b: seq<T>)
    requires a != [] && b != [] && a[0] == b[0] && a[1..] == b[1..]
    ensures a == b
  {
    assert a == [a[0]] + a[1..] && b == [b[0]] + b[1..];
  }

  /** A sorted arrangement that keeps tied items in their order is the one and only such arrangement. */
  lemma {:induction false} SortIsUnique<T(!new)>(cmp: (T, T) -> int, a: seq<T>, b: seq<T>, all: set<T>)
    requires IsOrderOn(cmp, all) && AreAlike(cmp, a, b, all)
    ensures a == b
  {
    SameEmptiness(cmp, a, b, all);
    SameEmptiness(cmp, b, a, all);
    if a != [] {
      SameFirst(cmp, a, b, all);
      TailsAreAlike(cmp, a, b, all);
      SortIsUnique(cmp, a[1..], b[1..], all);
      SameHeadAndTail(a, b);
    }
  }

  lemma {:induction false} SortSorts<T(!new)>(cmp: (T, T) -> int, items: seq<T>, all: set<T>)
    requires IsOrderOn(cmp, all) && forall y :: y in items ==> y in all
    ensures Sorted(cmp, Sort(cmp, items)) && multiset(Sort(cmp, items)) == multiset(items)
  {
    if items != [] {
      SortSorts(cmp, items[1..], all);
      assert items == [items[0]] + items[1..];
      forall y | y in Sort(cmp, items[1..]) ensures y in all {
        assert y in multiset(items[1..]);
      }
      InsertKeepsOrder(cmp, items[0], Sort(cmp, items[1..]), all);
      InsertContents(cmp, items[0], Sort(cmp, items[1..]));
    }
  }

  ghost predicate InTree(dir: string, line: string) {
    line != "" && dir <= Dir(RemovePrefix(line))
  }

  /** Between two files of one directory's subtree come only lines of that subtree. */
  ghost predicate SubtreeIsTogether(out: seq<string>, dir: string) {
    forall i, k, j :: 0 <= i < k < j < |out| && '/' in out[i] && '/' in out[j] ==>
      InTree(dir, out[i]) && InTree(dir, out[j]) ==> InTree(dir, out[k])
  }

  /** Every subtree is together, and the files of a subdirectory precede the directory's own files. */
  ghost predicate GroupsDirectories(out: seq<string>) {
    && (forall dir: string :: dir != "" && dir[|dir| - 1] == '/' ==> SubtreeIsTogether(out, dir))
    && (forall i, j :: 0 <= i < |out| && 0 <= j < |out| && '/' in out[i] && '/' in out[j] ==>
          Dir(RemovePrefix(out[i])) < Dir(RemovePrefix(out[j])) ==> j < i)
  }

  lemma {:induction false} LexBetween(p: seq<int>, a: seq<int>, b: seq<int>, c: seq<int>)
    requires p <= a && p <= c && Lex(a, b) <= 0 && Lex(b, c) <= 0
    ensures p <= b
  {
    if p != [] {
      assert a[0] == p[0] == c[0];
      assert b != [] && b[0] == p[0];
      LexBetween(p[1..], a[1..], b[1..], c[1..]);
      assert p == [p[0]] + p[1..] && b == [b[0]] + b[1..];
    }
  }

  lemma TreeHasKeyPrefix(s: string, deep: bool, dir: string)
    requires '/' in s && dir <= Dir(s)
    ensures Codes(dir) <= Key(s, deep)
  {
    DirShape(s);
    SlashedKey(s, deep);
    assert forall i :: 0 <= i < |dir| ==> dir[i] == Dir(s)[i] == s[i];
  }

  lemma SlashedPrefixIsInTree(s: string, deep: bool, dir: string)
    requires '/' in s && Codes(dir) <= Key(s, deep)
    ensures dir <= Dir(s)
  {
    var key := Key(s, deep);
    DirShape(s);
    SlashedKey(s, deep);
    forall i | 0 <= i < |dir| ensures key[i] == dir[i] as int {
      assert key[i] == Codes(dir)[i];
    }
    assert |dir| <= |Dir(s)|;
    assert forall i :: 0 <= i < |dir| ==> Dir(s)[i] == s[i];
  }

  lemma SlashlessPrefixIsInTree(s: string, deep: bool, dir: string)
    requires '/' !in s && dir != "" && dir[|dir| - 1] == '/'
    requires Codes(dir) <= Key(s, deep)
    ensures dir <= Dir(s)
  {
    var key := Key(s, deep);
    SlashlessKey(s, deep);
    forall i | 0 <= i < |dir| ensures key[i] == dir[i] as int {
      assert key[i] == Codes(dir)[i];
    }
    var last := |dir| - 1;
    assert last <= |s|;
    assert dir == s + "/";
  }

  lemma ConsPrefix(a: seq<int>, b: seq<int>)
    ensures [1] + a <= [1] + b <==> a <= b
  {
    assert ([1] + a)[1..] == a && ([1] + b)[1..] == b;
  }

  /** A file's key starts with each directory it lies in; only lines of the subtree have such keys. */
  lemma TreeIsKeyPrefix(lines: set<string>, dir: string, line: string)
    requires dir != "" && dir[|dir| - 1] == '/'
    ensures '/' in line && InTree(dir, line) ==> [1] + Codes(dir) <= LineKey(lines, line)
    ensures [1] + Codes(dir) <= LineKey(lines, line) ==> InTree(dir, line)
  {
    if line != "" {
      var s := RemovePrefix(line);
      var deep := HasDeep(lines, s);
      ConsPrefix(Codes(dir), Key(s, deep));
      if '/' in line && dir <= Dir(s) {
        SlashSurvives(line);
        TreeHasKeyPrefix(s, deep, dir);
      }
      if Codes(dir) <= Key(s, deep) {
        if '/' in s {
          SlashedPrefixIsInTree(s, deep, dir);
        } else {
          SlashlessPrefixIsInTree(s, deep, dir);
        }
      }
    }
  }

  lemma SlashSurvives(s: string)
    requires '/' in s
    ensures '/' in RemovePrefix(s)
  {
    var i :| 0 <= i < |s| && s[i] == '/';
    assert s[0] == '-' ==> s[1..][i - 1] == '/';
  }

  lemma SortedKeepsSubtree(out: seq<string>, lines: set<string>, dir: string)
    requires Consistent(lines) && Sorted(Compare, out) && forall s :: s in out ==> s in lines
    requires dir != "" && dir[|dir| - 1] == '/'
    ensures SubtreeIsTogether(out, dir)
  {
    forall i, k, j
      | 0 <= i < k < j < |out| && '/' in out[i] && '/' in out[j] && InTree(dir, out[i]) && InTree(dir, out[j])
      ensures InTree(dir, out[k])
    {
      CompareIsKeyOrder(lines, out[i], out[k]);
      CompareIsKeyOrder(lines, out[k], out[j]);
      TreeIsKeyPrefix(lines, dir, out[i]);
      TreeIsKeyPrefix(lines, dir, out[j]);
      TreeIsKeyPrefix(lines, dir, out[k]);
      LexBetween([1] + Codes(dir), LineKey(lines, out[i]), LineKey(lines, out[k]), LineKey(lines, out[j]));
    }
  }

  lemma SubdirectoryFirst(a: string, b: string)
    requires '/' in a && '/' in b && Dir(RemovePrefix(a)) < Dir(RemovePrefix(b))
    ensures Compare(a, b) == 1
  {
    SlashSurvives(a);
    SlashSurvives(b);
  }

  /** Any arrangement of a consistent section that is sorted by the comparator groups its directories. */
  lemma SortedGroups(out: seq<string>, lines: set<string>)
    requires Consistent(lines) && Sorted(Compare, out) && forall s :: s in out ==> s in lines
    ensures GroupsDirectories(out)
  {
    forall dir: string | dir != "" && dir[|dir| - 1] == '/' ensures SubtreeIsTogether(out, dir) {
      SortedKeepsSubtree(out, lines, dir);
    }
    forall i, j | 0 <= i < |out| && 0 <= j < |out| && '/' in out[i] && '/' in out[j]
      && Dir(RemovePrefix(out[i])) < Dir(RemovePrefix(out[j]))
      ensures j < i
    {
      SubdirectoryFirst(out[i], out[j]);
    }
  }

  lemma ConsistentIsOrder(lines: set<string>)
    requires Consistent(lines)
    ensures IsOrderOn(Compare, lines)
  {
    TransitiveIffConsistent(lines);
    forall a, b ensures Compare(a, b) <= 0 || Compare(b, a) <= 0 { CompareAntisymmetric(a, b); }
  }

  /** Lines that tie, which differ in nothing but the leading '-', keep their order. */
  ghost predicate KeepsTies(section: seq<string>, out: seq<string>) {
    forall x :: x in section ==> Ties(Compare, x, out) == Ties(Compare, x, section)
  }

  /** Sorting a consistent section permutes it, orders it and keeps every directory's subtree together. */
  lemma SortedSection(section: seq<string>, lines: set<string>)
    requires Consistent(lines) && forall s :: s in section ==> s in lines
    ensures multiset(Sort(Compare, section)) == multiset(section)
    ensures Sorted(Compare, Sort(Compare, section))
    ensures GroupsDirectories(Sort(Compare, section))
    ensures KeepsTies(section, Sort(Compare, section))
  {
    ConsistentIsOrder(lines);
    SortSorts(Compare, section, lines);
    forall x | x in section ensures Ties(Compare, x, Sort(Compare, section)) == Ties(Compare, x, section) {
      SortIsStable(Compare, section, lines, x);
    }
    forall s | s in Sort(Compare, section) ensures s in lines {
      assert s in multiset(section);
    }
    SortedGroups(Sort(Compare, section), lines);
  }

  /** What the file loop makes of a section: the same lines and, when they are consistent, in the
    * comparator's order and grouped by directory.
    */
  ghost predicate IsOrdered(section: seq<string>, out: seq<string>) {
    && multiset(out) == multiset(section)
    && (Consistent(set s | s in section) ==> Sorted(Compare, out) && GroupsDirectories(out) && KeepsTies(section, out))
  }

  /** The loop over the sections of a file, each a list of stripped lines. */
  method OrderSections(sections: seq<seq<string>>) returns (orderedSections: seq<seq<string>>)
    ensures |orderedSections| == |sections|
    ensures forall i :: 0 <= i < |sections| ==> IsOrdered(sections[i], orderedSections[i])
  {
    orderedSections := [];
    for n := 0 to |sections|
      invariant |orderedSections| == n
      invariant forall i :: 0 <= i < n ==> orderedSections[i] == Sort(Compare, sections[i])
    {
      orderedSections := orderedSections + [Sort(Compare, sections[n])];
    }
    forall i | 0 <= i < |sections| ensures IsOrdered(sections[i], orderedSections[i]) {
      SortIsOrdered(sections[i]);
    }
  }

  lemma SortIsOrdered(section: seq<string>)
    ensures IsOrdered(section, Sort(Compare, section))
  {
    SortKeepsLines(Compare, section);
    if Consistent(set s | s in section) {
      SortedSection(section, set s | s in section);
    }
  }

  lemma {:induction false} SortKeepsLines<T(!new)>(cmp: (T, T) -> int, items: seq<T>)
    ensures multiset(Sort(cmp, items)) == multiset(items)
  {
    if items != [] {
      SortKeepsLines(cmp, items[1..]);
      assert items == [items[0]] + items[1..];
      InsertContents(cmp, items[0], Sort(cmp, items[1..]));
    }
  }
}
