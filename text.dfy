/** The handful of JavaScript string operations the application relies on,
    over `string` (a sequence of Unicode scalar values, where JavaScript
    strings hold UTF-16 code units): `toLowerCase` (ASCII
    letters only), `trim`, `includes`, `split('.').pop()`, Node's
    `path.extname`, and `split('/')` / `join('/')`. */
module Text {

  function LowerChar(c: char): char
  {
    if 'A' <= c <= 'Z' then (c as int + 32) as char else c
  }

  /** `s.toLowerCase()`, lowering the ASCII letters only. */
  function Lower(s: string): (r: string)
    ensures |r| == |s|
    ensures forall i :: 0 <= i < |s| ==> r[i] == LowerChar(s[i])
  {
    seq(|s|, i requires 0 <= i < |s| => LowerChar(s[i]))
  }

  lemma LowerConcat(a: string, b: string)
    ensures Lower(a + b) == Lower(a) + Lower(b)
  {
  }

  /** The characters ECMAScript's `trim` removes: WhiteSpace and
      LineTerminator code points. */
  predicate IsSpace(c: char)
  {
    var n := c as int;
    (9 <= n <= 13) || n == 0x20 || n == 0xA0 || n == 0x1680 || (0x2000 <= n <= 0x200A)
    || n == 0x2028 || n == 0x2029 || n == 0x202F || n == 0x205F || n == 0x3000 || n == 0xFEFF
  }

  predicate IsBlank(s: string)
  {
    forall i :: 0 <= i < |s| ==> IsSpace(s[i])
  }

  /** The end of the run of white space that starts at `k`. */
  function SpaceRunEnd(s: string, k: nat): (n: nat)
    requires k <= |s|
    ensures k <= n <= |s|
    ensures forall i :: k <= i < n ==> IsSpace(s[i])
    ensures n < |s| ==> !IsSpace(s[n])
    decreases |s| - k
  {
    if k < |s| && IsSpace(s[k]) then SpaceRunEnd(s, k + 1) else k
  }

  /** The start of the run of white space that ends at `k`, going no lower
      than `lo`. */
  function SpaceRunStart(s: string, lo: nat, k: nat): (m: nat)
    requires lo <= k <= |s|
    ensures lo <= m <= k
    ensures forall i :: m <= i < k ==> IsSpace(s[i])
    ensures lo < m ==> !IsSpace(s[m - 1])
    decreases k
  {
    if lo < k && IsSpace(s[k - 1]) then SpaceRunStart(s, lo, k - 1) else k
  }

  /** `s.trim()`: white space is removed from both ends, so what is left is
      empty exactly when every character of `s` is white space. */
  function Trim(s: string): (r: string)
    ensures |r| <= |s|
    ensures r == [] || (!IsSpace(r[0]) && !IsSpace(r[|r| - 1]))
    ensures r == [] <==> IsBlank(s)
  {
    var a := SpaceRunEnd(s, 0);
    var m := SpaceRunStart(s, a, |s|);
    assert a < m ==> !IsSpace(s[a]);
    s[a..m]
  }

  predicate OccursAt(s: string, q: string, i: int)
  {
    0 <= i && i + |q| <= |s| && s[i..i + |q|] == q
  }

  /** `s.includes(q)`. */
  predicate Contains(s: string, q: string)
  {
    exists i | 0 <= i <= |s| - |q| :: OccursAt(s, q, i)
  }

  /** Every string includes the empty string. */
  lemma ContainsEmpty(s: string)
    ensures Contains(s, "")
  {
    assert OccursAt(s, "", 0);
  }

  /** `t` holds no `.`. */
  predicate DotFree(t: string)
  {
    forall i :: 0 <= i < |t| ==> t[i] != '.'
  }

  /** Where the run of non-`.` characters ending at `k` starts: just after
      the last `.` before `k`, or 0. */
  function LastDotEnd(s: string, k: nat): (m: nat)
    requires k <= |s|
    ensures m <= k
    ensures forall i :: m <= i < k ==> s[i] != '.'
    ensures m > 0 ==> s[m - 1] == '.'
    decreases k
  {
    if k > 0 && s[k - 1] != '.' then LastDotEnd(s, k - 1) else k
  }

  /** The run start is the `m` after which no `.` comes before `k`, and
      that is preceded by a `.` or is 0. */
  lemma LastDotEndUnique(s: string, k: nat, m: nat)
    requires m <= k <= |s|
    requires forall i :: m <= i < k ==> s[i] != '.'
    requires m > 0 ==> s[m - 1] == '.'
    ensures LastDotEnd(s, k) == m
  {
  }

  /** Lower-casing moves no `.`. */
  lemma {:induction false} LastDotEndLower(s: string, k: nat)
    requires k <= |s|
    ensures LastDotEnd(Lower(s), k) == LastDotEnd(s, k)
    decreases k
  {
    if k > 0 {
      LastDotEndLower(s, k - 1);
    }
  }

  /** Lower-casing commutes with dropping a prefix. */
  lemma LowerSuffix(s: string, m: nat)
    requires m <= |s|
    ensures Lower(s[m..]) == Lower(s)[m..]
  {
  }

  /** `s.split('.').pop()`: the text after the last `.`, or all of `s` when it
      has no `.`. */
  function AfterLastDot(s: string): (r: string)
    ensures |r| <= |s|
    ensures forall i :: 0 <= i < |r| ==> r[i] == s[|s| - |r| + i]
    ensures DotFree(r)
    ensures |r| < |s| ==> s[|s| - |r| - 1] == '.'
  {
    s[LastDotEnd(s, |s|)..]
  }

  /** The text after the last `.` is the only suffix without `.` that is
      either all of `s` or preceded by a `.`. */
  lemma AfterLastDotUnique(s: string, r: string)
    requires |r| <= |s| && r == s[|s| - |r|..] && DotFree(r)
    requires |r| < |s| ==> s[|s| - |r| - 1] == '.'
    ensures r == AfterLastDot(s)
  {
  }

  /** A `.` at position `k` lies before any dot-free suffix. */
  lemma DotFreeSuffix(s: string, t: string, k: int)
    requires |t| <= |s| && t == s[|s| - |t|..] && DotFree(t)
    ensures |s| - |t| <= k < |s| ==> s[k] != '.'
  {
    if |s| - |t| <= k < |s| {
      assert s[k] == t[k - (|s| - |t|)];
    }
  }

  /** Lower-casing never creates or removes a `.`, so it commutes with
      taking the text after the last `.`. */
  lemma AfterLastDotLower(s: string)
    ensures AfterLastDot(Lower(s)) == Lower(AfterLastDot(s))
  {
    LastDotEndLower(s, |s|);
    LowerSuffix(s, LastDotEnd(s, |s|));
  }

  /** A string without `.` is its own last `.`-segment. */
  lemma NoDotIsOwnTail(s: string)
    requires DotFree(s)
    ensures AfterLastDot(s) == s
  {
    AfterLastDotUnique(s, s);
  }

  /** `s` is the name `..`. */
  predicate IsDotDot(s: string)
  {
    |s| == 2 && s[0] == '.' && s[1] == '.'
  }

  /** Node's `path.extname` for a directory-entry name (such a name has no
      `/`): from the last `.` to the end, or `""` when there is no `.`, when
      the last `.` is the first character, or for the name `..`. */
  function ExtName(name: string): (r: string)
    ensures r == "" || (|r| < |name| && r == name[|name| - |r|..] && r[0] == '.' && DotFree(r[1..]))
    ensures (DotFree(name) || IsDotDot(name)) ==> r == ""
  {
    var m := LastDotEnd(name, |name|);
    if m <= 1 || IsDotDot(name) then ""
    else
      assert name[m - 1..][1..] == name[m..];
      name[m - 1..]
  }

  /** When a `.` comes after the first character (and the name is not
      `..`), `path.extname` is a `.` followed by the last `.`-segment. */
  lemma ExtNameOfDotted(l: string, k: nat)
    requires 1 <= k < |l| && l[k] == '.' && !IsDotDot(l)
    ensures ExtName(l) == ['.'] + AfterLastDot(l)
  {
    var m := LastDotEnd(l, |l|);
    assert k < m;
    assert l[m - 1..] == [l[m - 1]] + l[m..];
  }

  /** `t` is the last `.`-segment of `l`: all of `l`, or `t` preceded by a
      `.`. */
  predicate IsLastSegment(l: string, t: string)
  {
    l == t || (|t| < |l| && l[|l| - |t| - 1..] == ['.'] + t)
  }

  /** The text after the last `.` is the last `.`-segment. */
  lemma AfterLastDotIsLastSegment(l: string)
    ensures IsLastSegment(l, AfterLastDot(l))
  {
    var t := AfterLastDot(l);
    var n := |l|;
    if |t| < n {
      assert l[n - |t| - 1..] == [l[n - |t| - 1]] + l[n - |t|..];
    }
  }

  /** A dot-free last `.`-segment is the text after the last `.`. */
  lemma LastSegmentIsAfterLastDot(l: string, t: string)
    requires DotFree(t) && IsLastSegment(l, t)
    ensures AfterLastDot(l) == t
  {
    var n := |l|;
    if l == t {
      NoDotIsOwnTail(l);
    } else {
      assert l[n - |t|..] == l[n - |t| - 1..][1..];
      assert l[n - |t| - 1] == l[n - |t| - 1..][0];
      AfterLastDotUnique(l, t);
    }
  }

  /** For a dot-free `t`, `split('.').pop()` is `t` exactly when `t` is the
      last `.`-segment. */
  lemma AfterLastDotIff(l: string, t: string)
    requires DotFree(t)
    ensures AfterLastDot(l) == t <==> IsLastSegment(l, t)
  {
    AfterLastDotIsLastSegment(l);
    if IsLastSegment(l, t) {
      LastSegmentIsAfterLastDot(l, t);
    }
  }

  /** A non-empty extension as `path.extname` returns it: a `.`, then at
      least one character and no further `.`. */
  predicate IsExtension(e: string)
  {
    |e| >= 2 && e[0] == '.' && DotFree(e[1..])
  }

  /** `path.extname` is the extension `e` exactly when the name ends in `e`
      and something comes before it. */
  lemma ExtNameIff(l: string, e: string)
    requires IsExtension(e)
    ensures ExtName(l) == e <==> |e| < |l| && l[|l| - |e|..] == e
  {
    if |e| < |l| && l[|l| - |e|..] == e {
      ExtNameOfSuffix(l, e);
    }
  }

  /** A name ending in an extension, with something before it, has that
      extension. */
  lemma ExtNameOfSuffix(l: string, e: string)
    requires IsExtension(e) && |e| < |l| && l[|l| - |e|..] == e
    ensures ExtName(l) == e
  {
    var n := |l|;
    var j := n - |e| + 1;
    assert LastDotEnd(l, n) == j by {
      forall i | j <= i < n ensures l[i] != '.' {
        assert l[i] == e[1..][i - j];
      }
      assert l[j - 1] == e[0];
      LastDotEndUnique(l, n, j);
    }
    assert !IsDotDot(l) && j > 1;
  }

  /** Lower-casing commutes with `path.extname`. */
  lemma ExtNameLower(name: string)
    ensures Lower(ExtName(name)) == ExtName(Lower(name))
  {
    var m := LastDotEnd(name, |name|);
    LastDotEndLower(name, |name|);
    assert IsDotDot(Lower(name)) <==> IsDotDot(name);
    if m >= 1 {
      LowerSuffix(name, m - 1);
    }
  }

  /** The first `/` at or after `k`, or `|s|` when there is none. */
  function SlashFrom(s: string, k: nat): (i: nat)
    requires k <= |s|
    ensures k <= i <= |s|
    ensures forall j :: k <= j < i ==> s[j] != '/'
    ensures i < |s| ==> s[i] == '/'
    decreases |s| - k
  {
    if k < |s| && s[k] != '/' then SlashFrom(s, k + 1) else k
  }

  /** `s.split('/')`. */
  function Split(s: string): (r: seq<string>)
    ensures |r| >= 1
    decreases |s|
  {
    var i := SlashFrom(s, 0);
    if i == |s| then [s] else [s[..i]] + Split(s[i + 1..])
  }

  /** `parts.join('/')`. */
  function Join(parts: seq<string>): string
  {
    if parts == [] then ""
    else if |parts| == 1 then parts[0]
    else parts[0] + "/" + Join(parts[1..])
  }

  /** The last `/`-segment: `s.split('/').pop()`. */
  function LastSegment(s: string): string
  {
    var parts := Split(s);
    parts[|parts| - 1]
  }

  /** `t` is the text after the last `/` of `s` (all of `s` when it has
      none). */
  predicate IsTailAfterSlash(s: string, t: string)
  {
    '/' !in t && |t| <= |s| && s[|s| - |t|..] == t && (|t| == |s| || s[|s| - |t| - 1] == '/')
  }

  /** The last segment of `split('/')` is the text after the last `/`. */
  lemma {:induction false} LastSegmentIsTail(s: string)
    ensures IsTailAfterSlash(s, LastSegment(s))
    decreases |s|
  {
    var i := SlashFrom(s, 0);
    if i < |s| {
      var rest := s[i + 1..];
      LastSegmentIsTail(rest);
      assert LastSegment(s) == LastSegment(rest) by {
        assert Split(s) == [s[..i]] + Split(rest);
      }
      TailAfterSlashExtends(s, i, LastSegment(rest));
    } else {
      assert LastSegment(s) == s by {
        assert Split(s) == [s];
      }
      assert s[0..] == s;
    }
  }

  /** The text after the last `/` of what follows a `/` is also the text
      after the last `/` of the whole. */
  lemma TailAfterSlashExtends(s: string, i: nat, t: string)
    requires i < |s| && s[i] == '/' && IsTailAfterSlash(s[i + 1..], t)
    ensures IsTailAfterSlash(s, t)
  {
    var rest := s[i + 1..];
    assert s[|s| - |t|..] == rest[|rest| - |t|..];
    if |t| < |rest| {
      assert s[|s| - |t| - 1] == rest[|rest| - |t| - 1];
    } else {
      assert |s| - |t| - 1 == i;
    }
  }

  /** A string is what comes before position `i`, the character there, and
      what comes after. */
  lemma CutAt(s: string, i: nat)
    requires i < |s|
    ensures s == s[..i] + [s[i]] + s[i + 1..]
  {
    assert s == s[..i] + s[i..];
    assert s[i..] == [s[i]] + s[i + 1..];
  }

  /** Joining the pieces of a split gives back the string. */
  lemma {:induction false} JoinSplit(s: string)
    ensures Join(Split(s)) == s
    decreases |s|
  {
    var i := SlashFrom(s, 0);
    if i < |s| {
      var rest := Split(s[i + 1..]);
      JoinSplit(s[i + 1..]);
      assert Split(s)[1..] == rest;
      CutAt(s, i);
    }
  }

  /** The first `/` of `s` is at `i` when `s[i]` is `/` and none comes
      before; `split` then cuts there. */
  lemma SplitAt(s: string, i: nat)
    requires i < |s| && s[i] == '/'
    requires forall j :: 0 <= j < i ==> s[j] != '/'
    ensures Split(s) == [s[..i]] + Split(s[i + 1..])
  {
    assert SlashFrom(s, 0) == i;
  }

  /** When `a` has a `/`, splitting `a + "/" + b` cuts at that first `/`. */
  lemma SplitJoinedAt(a: string, b: string, i: nat)
    requires i < |a| && a[i] == '/'
    requires forall j :: 0 <= j < i ==> a[j] != '/'
    ensures Split(a + "/" + b) == [a[..i]] + Split(a[i + 1..] + "/" + b)
  {
    var s := a + "/" + b;
    forall j | 0 <= j < i ensures s[j] != '/' {
      assert s[j] == a[j];
    }
    SplitAt(s, i);
    assert s[..i] == a[..i];
    assert s[i + 1..] == a[i + 1..] + "/" + b;
  }

  /** When `a` has no `/`, splitting `a + "/" + b` cuts right after `a`. */
  lemma SplitJoinedAtEnd(a: string, b: string)
    requires forall j :: 0 <= j < |a| ==> a[j] != '/'
    ensures Split(a + "/" + b) == [a] + Split(b)
  {
    var s := a + "/" + b;
    forall j | 0 <= j < |a| ensures s[j] != '/' {
      assert s[j] == a[j];
    }
    SplitAt(s, |a|);
    assert s[..|a|] == a;
    assert s[|a| + 1..] == b;
  }

  /** Splitting `a + "/" + b` splits `a` and `b` separately. */
  lemma {:induction false} SplitConcat(a: string, b: string)
    ensures Split(a + "/" + b) == Split(a) + Split(b)
    decreases |a|
  {
    var i := SlashFrom(a, 0);
    if i < |a| {
      SplitJoinedAt(a, b, i);
      SplitConcat(a[i + 1..], b);
      SplitAt(a, i);
      assert [a[..i]] + (Split(a[i + 1..]) + Split(b)) == [a[..i]] + Split(a[i + 1..]) + Split(b);
    } else {
      SplitJoinedAtEnd(a, b);
    }
  }

  /** A string without `/` splits into itself alone. */
  lemma SplitNoSlash(s: string)
    requires '/' !in s
    ensures Split(s) == [s]
  {
  }

  /** Code-point lexicographic order: the stand-in for `localeCompare`
      (`a.localeCompare(b) <= 0`). */
  predicate StrLe(a: string, b: string)
  {
    a == [] || (b != [] && (a[0] < b[0] || (a[0] == b[0] && StrLe(a[1..], b[1..]))))
  }

  lemma {:induction false} StrLeTotal(a: string, b: string)
    ensures StrLe(a, b) || StrLe(b, a)
  {
    if a != [] && b != [] && a[0] == b[0] {
      StrLeTotal(a[1..], b[1..]);
    }
  }

  lemma {:induction false} StrLeTransitive(a: string, b: string, c: string)
    requires StrLe(a, b) && StrLe(b, c)
    ensures StrLe(a, c)
  {
    if a != [] && a[0] == b[0] && b[0] == c[0] {
      StrLeTransitive(a[1..], b[1..], c[1..]);
    }
  }

  lemma {:induction false} StrLeAntisymmetric(a: string, b: string)
    requires StrLe(a, b) && StrLe(b, a)
    ensures a == b
  {
    if a != [] {
      StrLeAntisymmetric(a[1..], b[1..]);
      assert a == [a[0]] + a[1..] && b == [b[0]] + b[1..];
    }
  }
}
