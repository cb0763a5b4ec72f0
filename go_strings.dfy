/** Models of the Go standard-library string functions that the expansion engine
    relies on: strings.Contains (a regular expression made of literal characters
    matches exactly where the literal occurs), strings.Replace with n = -1 and
    n = 1, strings.Trim with a one-character cut set,
    bytes.TrimSpace, strings.ToLower restricted to ASCII, strconv.Itoa and
    strings.HasSuffix / TrimSuffix. Strings are sequences of runes. */
module GoStrings {

  /** `p` is a prefix of `s` (strings.HasPrefix). */
  predicate IsPrefix(p: string, s: string) {
    |p| <= |s| && s[..|p|] == p
  }

  /** `suffix` is a suffix of `s` (strings.HasSuffix). */
  predicate HasSuffix(s: string, suffix: string) {
    |suffix| <= |s| && s[|s| - |suffix|..] == suffix
  }

  /** strings.TrimSuffix: `s` without `suffix` when it ends with it. */
  function TrimSuffix(s: string, suffix: string): (r: string)
    ensures HasSuffix(s, suffix) ==> r + suffix == s
    ensures !HasSuffix(s, suffix) ==> r == s
  {
    if HasSuffix(s, suffix) then s[..|s| - |suffix|] else s
  }

  /** `sub` occurs in `s` starting at index `i`. */
  predicate OccursAt(s: string, sub: string, i: int) {
    0 <= i && i + |sub| <= |s| && s[i..i + |sub|] == sub
  }

  /** Substring containment, by a left-to-right scan. */
  predicate Contains(s: string, sub: string)
    decreases |s|
  {
    IsPrefix(sub, s) || (|s| > 0 && Contains(s[1..], sub))
  }

  lemma {:induction false} OccursContains(s: string, sub: string, i: int)
    requires OccursAt(s, sub, i)
    ensures Contains(s, sub)
    decreases i
  {
    if i == 0 {
      assert IsPrefix(sub, s);
    } else {
      assert s[1..][i - 1..i - 1 + |sub|] == s[i..i + |sub|];
      OccursContains(s[1..], sub, i - 1);
    }
  }

  lemma {:induction false} ContainsOccurs(s: string, sub: string)
    requires Contains(s, sub)
    ensures exists i :: OccursAt(s, sub, i)
    decreases |s|
  {
    if IsPrefix(sub, s) {
      assert OccursAt(s, sub, 0);
    } else {
      ContainsOccurs(s[1..], sub);
      var j :| OccursAt(s[1..], sub, j);
      assert s[1..][j..j + |sub|] == s[j + 1..j + 1 + |sub|];
      assert OccursAt(s, sub, j + 1);
    }
  }

  /** The scan finds `sub` exactly when it occurs at some index. */
  lemma ContainsIff(s: string, sub: string)
    ensures Contains(s, sub) <==> exists i :: OccursAt(s, sub, i)
  {
    if Contains(s, sub) {
      ContainsOccurs(s, sub);
    }
    if exists i :: OccursAt(s, sub, i) {
      var i :| OccursAt(s, sub, i);
      OccursContains(s, sub, i);
    }
  }

  /** Containment is transitive: whatever contains `a` contains what `a` contains. */
  lemma ContainsTransitive(s: string, a: string, b: string)
    requires Contains(s, a) && Contains(a, b)
    ensures Contains(s, b)
  {
    ContainsOccurs(s, a);
    var i :| OccursAt(s, a, i);
    ContainsOccurs(a, b);
    var j :| OccursAt(a, b, j);
    forall k | 0 <= k < |b| ensures b[k] == s[i + j + k] {
      assert b[k] == a[j + k];
      assert a[j + k] == s[i..i + |a|][j + k];
    }
    assert s[i + j..i + j + |b|] == b;
    OccursContains(s, b, i + j);
  }

  /** An occurrence past the first rune is an occurrence in the tail. */
  lemma OccursInTail(s: string, sub: string, i: int)
    requires 0 < i && OccursAt(s, sub, i)
    ensures OccursAt(s[1..], sub, i - 1)
  {
    assert s[1..][i - 1..i - 1 + |sub|] == s[i..i + |sub|];
  }

  /** An occurrence in the tail is an occurrence one rune further on. */
  lemma OccursFromTail(s: string, sub: string, k: int)
    requires |s| > 0 && 0 <= k
    ensures OccursAt(s[1..], sub, k) ==> OccursAt(s, sub, k + 1)
  {
    if k + |sub| <= |s| - 1 {
      assert s[1..][k..k + |sub|] == s[k + 1..k + 1 + |sub|];
    }
  }

  /** A prefix is an occurrence at index 0. */
  lemma PrefixOccurs(s: string, sub: string)
    ensures IsPrefix(sub, s) <==> OccursAt(s, sub, 0)
  {
    if |sub| <= |s| {
      assert s[..|sub|] == s[0..|sub|];
    }
  }

  /** Each rune of an occurrence is the matching rune of `sub`. */
  lemma OccursRune(s: string, sub: string, k: int, d: int)
    requires 0 <= d < |sub|
    ensures OccursAt(s, sub, k) ==> s[k + d] == sub[d]
  {
    if OccursAt(s, sub, k) {
      assert s[k..k + |sub|][d] == s[k + d];
    }
  }

  /** No occurrence starts where the first rune of `sub` is missing. */
  lemma NoRuneNoOccurs(s: string, sub: string, lo: int, hi: int)
    requires |sub| > 0 && 0 <= lo && hi <= |s|
    requires forall k :: lo <= k < hi ==> s[k] != sub[0]
    ensures forall k :: lo <= k < hi ==> !OccursAt(s, sub, k)
  {
    forall k | lo <= k < hi ensures !OccursAt(s, sub, k) {
      OccursRune(s, sub, k, 0);
    }
  }

  /** An occurrence cannot run into a separator none of whose runes occur in
      `t`, so text that has none on either side of it has none at all. */
  lemma NoContainsAround(x: string, sep: string, y: string, t: string)
    requires |sep| > 0 && forall c :: c in t ==> c !in sep
    requires !Contains(x, t) && !Contains(y, t)
    ensures !Contains(x + sep + y, t)
  {
    var s := x + sep + y;
    ContainsIff(x, t);
    ContainsIff(y, t);
    ContainsIff(s, t);
    forall i | 0 <= i && i + |t| <= |s| ensures !OccursAt(s, t, i) {
      if i + |t| <= |x| {
        assert s[i..i + |t|] == x[i..i + |t|];
        assert !OccursAt(x, t, i);
      } else if i >= |x| + |sep| {
        var j := i - |x| - |sep|;
        assert s[i..i + |t|] == y[j..j + |t|];
        assert !OccursAt(y, t, j);
      } else {
        var p := if i < |x| then |x| else i;
        assert s[p] == sep[p - |x|];
        OccursRune(s, t, i, p - i);
        assert t[p - i] in t && sep[p - |x|] in sep;
      }
    }
  }

  /** No `c` in `s` is immediately followed by `d`. */
  predicate NeverFollows(s: string, c: char, d: char) {
    forall k :: 0 <= k < |s| - 1 ==> s[k] != c || s[k + 1] != d
  }

  /** Two texts that never have `c` before `d`, and do not form the pair
      where they meet, never have it together either. */
  lemma NeverFollowsConcat(x: string, y: string, c: char, d: char)
    requires NeverFollows(x, c, d) && NeverFollows(y, c, d)
    requires |x| > 0 && |y| > 0 ==> x[|x| - 1] != c || y[0] != d
    ensures NeverFollows(x + y, c, d)
  {
    var s := x + y;
    forall k | 0 <= k < |s| - 1 ensures s[k] != c || s[k + 1] != d {
      if k + 1 < |x| {
        assert s[k] == x[k] && s[k + 1] == x[k + 1];
      } else if k >= |x| {
        assert s[k] == y[k - |x|] && s[k + 1] == y[k + 1 - |x|];
      }
    }
  }

  /** A target whose first two runes never follow one another in `x`, nor
      where `x` meets `y`, starts nowhere in `x + y` before `|x|`. */
  lemma PairNoOccurs(x: string, y: string, t: string)
    requires |t| >= 2 && NeverFollows(x, t[0], t[1])
    requires |x| > 0 && |y| > 0 ==> x[|x| - 1] != t[0] || y[0] != t[1]
    ensures forall k :: 0 <= k < |x| ==> !OccursAt(x + y, t, k)
  {
    var s := x + y;
    forall k | 0 <= k < |x| ensures !OccursAt(s, t, k) {
      OccursRune(s, t, k, 0);
      OccursRune(s, t, k, 1);
      if k + 1 < |x| {
        assert s[k] == x[k] && s[k + 1] == x[k + 1];
      }
    }
  }

  /** strings.Replace(s, target, repl, -1): every non-overlapping occurrence of
      `target`, left to right, is replaced by `repl`; an empty `target` matches
      before every rune and at the end. */
  function ReplaceAll(s: string, target: string, repl: string): string
    decreases |s|
  {
    if |target| == 0 then
      if |s| == 0 then repl else repl + [s[0]] + ReplaceAll(s[1..], target, repl)
    else if IsPrefix(target, s) then repl + ReplaceAll(s[|target|..], target, repl)
    else if |s| == 0 then []
    else [s[0]] + ReplaceAll(s[1..], target, repl)
  }

  /** Go returns `s` unchanged when `target == repl`; the scan agrees. */
  lemma {:induction false} ReplaceAllSame(s: string, target: string)
    ensures ReplaceAll(s, target, target) == s
    decreases |s|
  {
    if |target| == 0 {
      if |s| > 0 {
        ReplaceAllSame(s[1..], target);
        assert [s[0]] + s[1..] == s;
      }
    } else if IsPrefix(target, s) {
      ReplaceAllSame(s[|target|..], target);
      assert s[..|target|] + s[|target|..] == s;
    } else if |s| > 0 {
      ReplaceAllSame(s[1..], target);
      assert [s[0]] + s[1..] == s;
    }
  }

  /** A non-empty target that does not occur leaves the string unchanged. */
  lemma {:induction false} ReplaceAllAbsent(s: string, target: string, repl: string)
    requires |target| > 0 && !Contains(s, target)
    ensures ReplaceAll(s, target, repl) == s
    decreases |s|
  {
    if |s| > 0 {
      ReplaceAllAbsent(s[1..], target, repl);
      assert [s[0]] + s[1..] == s;
    }
  }

  /** A prefix without the first rune of `target` is passed over unchanged. */
  lemma {:induction false} ReplaceAllSkip(w: string, rest: string, target: string, repl: string)
    requires |target| > 0 && forall k :: 0 <= k < |w| ==> w[k] != target[0]
    ensures ReplaceAll(w + rest, target, repl) == w + ReplaceAll(rest, target, repl)
    decreases |w|
  {
    if |w| > 0 {
      var s := w + rest;
      assert s[0] != target[0];
      assert !IsPrefix(target, s);
      assert s[1..] == w[1..] + rest;
      ReplaceAllSkip(w[1..], rest, target, repl);
      var r := ReplaceAll(rest, target, repl);
      assert [w[0]] + (w[1..] + r) == ([w[0]] + w[1..]) + r;
      assert [w[0]] + w[1..] == w;
    } else {
      assert w + rest == rest;
    }
  }

  /** A leading occurrence is replaced and the scan resumes after it. */
  lemma ReplaceAllLeading(target: string, rest: string, repl: string)
    requires |target| > 0 && !Contains(rest, target)
    ensures ReplaceAll(target + rest, target, repl) == repl + rest
  {
    var s := target + rest;
    assert IsPrefix(target, s);
    assert s[|target|..] == rest;
    ReplaceAllAbsent(rest, target, repl);
  }

  /** strings.Replace(s, target, repl, -1) on a string whose first occurrence
      of `target` is at `i`: that occurrence is replaced, the text before it is
      kept, and the scan goes on after it. */
  lemma {:induction false} ReplaceAllFirst(s: string, target: string, i: nat, repl: string)
    requires |target| > 0 && OccursAt(s, target, i)
    requires forall k :: 0 <= k < i ==> !OccursAt(s, target, k)
    ensures ReplaceAll(s, target, repl) == s[..i] + repl + ReplaceAll(s[i + |target|..], target, repl)
    decreases i
  {
    PrefixOccurs(s, target);
    var after := ReplaceAll(s[i + |target|..], target, repl);
    if i == 0 {
      assert ReplaceAll(s, target, repl) == repl + after;
      assert s[..0] + repl == repl;
    } else {
      var t := s[1..];
      assert !IsPrefix(target, s);
      assert ReplaceAll(s, target, repl) == [s[0]] + ReplaceAll(t, target, repl);
      OccursInTail(s, target, i);
      forall k | 0 <= k < i - 1 ensures !OccursAt(t, target, k) {
        OccursFromTail(s, target, k);
      }
      assert t[i - 1 + |target|..] == s[i + |target|..];
      ReplaceAllFirst(t, target, i - 1, repl);
      var before := t[..i - 1];
      assert ReplaceAll(t, target, repl) == before + repl + after;
      ConsRegroup(s[0], before, repl, after);
      assert [s[0]] + before == s[..i];
    }
  }

  /** strings.Join: the parts with `sep` between each two of them. */
  function Join(parts: seq<string>, sep: string): string
    decreases |parts|
  {
    if |parts| == 0 then ""
    else if |parts| == 1 then parts[0]
    else parts[0] + sep + Join(parts[1..], sep)
  }

  /** strings.Split for a non-empty separator: the texts between the
      occurrences the left-to-right scan finds. */
  function Split(s: string, sep: string): (parts: seq<string>)
    requires |sep| > 0
    ensures |parts| > 0
    decreases |s|
  {
    if IsPrefix(sep, s) then [""] + Split(s[|sep|..], sep)
    else if |s| == 0 then [""]
    else
      var rest := Split(s[1..], sep);
      [[s[0]] + rest[0]] + rest[1..]
  }

  /** A part in front of a non-empty list is joined with one separator. */
  lemma JoinCons(p: string, parts: seq<string>, sep: string)
    requires |parts| > 0
    ensures Join([p] + parts, sep) == p + sep + Join(parts, sep)
  {
    assert ([p] + parts)[1..] == parts;
  }

  /** A rune put in front of the first part is put in front of the join. */
  lemma JoinExtendHead(c: char, parts: seq<string>, sep: string)
    requires |parts| > 0
    ensures Join([[c] + parts[0]] + parts[1..], sep) == [c] + Join(parts, sep)
  {
    var q := [[c] + parts[0]] + parts[1..];
    if |parts| > 1 {
      assert q[1..] == parts[1..];
      var j := Join(parts[1..], sep);
      assert ([c] + parts[0]) + sep + j == [c] + (parts[0] + sep + j);
    }
  }

  /** Joining the parts of a split with its separator gives the text back. */
  lemma {:induction false} SplitJoin(s: string, sep: string)
    requires |sep| > 0
    ensures Join(Split(s, sep), sep) == s
    decreases |s|
  {
    if IsPrefix(sep, s) {
      var tail := Split(s[|sep|..], sep);
      assert Split(s, sep) == [""] + tail;
      SplitJoin(s[|sep|..], sep);
      JoinCons("", tail, sep);
      assert s[..|sep|] + s[|sep|..] == s;
    } else if |s| > 0 {
      var rest := Split(s[1..], sep);
      assert Split(s, sep) == [[s[0]] + rest[0]] + rest[1..];
      SplitJoin(s[1..], sep);
      JoinExtendHead(s[0], rest, sep);
      assert [s[0]] + s[1..] == s;
    }
  }

  /** No part of a split holds the separator. */
  lemma {:induction false} SplitPartsFree(s: string, sep: string)
    requires |sep| > 0
    ensures forall k :: 0 <= k < |Split(s, sep)| ==> !Contains(Split(s, sep)[k], sep)
    decreases |s|
  {
    var parts := Split(s, sep);
    if IsPrefix(sep, s) {
      var tail := Split(s[|sep|..], sep);
      SplitPartsFree(s[|sep|..], sep);
      forall k | 0 <= k < |parts| ensures !Contains(parts[k], sep) {
        if k > 0 {
          assert parts[k] == tail[k - 1];
        }
      }
    } else if |s| > 0 {
      var rest := Split(s[1..], sep);
      SplitPartsFree(s[1..], sep);
      SplitJoin(s[1..], sep);
      var head := [s[0]] + rest[0];
      forall k | 0 <= k < |parts| ensures !Contains(parts[k], sep) {
        if k == 0 {
          HeadNotPrefix(s, rest, sep);
          assert head[1..] == rest[0];
        } else {
          assert parts[k] == rest[k];
        }
      }
    }
  }

  /** The first part of a split, a prefix of the text, cannot start with the
      separator when the text does not. */
  lemma HeadNotPrefix(s: string, rest: seq<string>, sep: string)
    requires |s| > 0 && !IsPrefix(sep, s) && |rest| > 0 && Join(rest, sep) == s[1..]
    ensures !IsPrefix(sep, [s[0]] + rest[0])
  {
    var head := [s[0]] + rest[0];
    if |rest| > 1 {
      assert s[1..] == rest[0] + (sep + Join(rest[1..], sep));
    }
    assert s[1..][..|rest[0]|] == rest[0];
    assert s[..|head|] == head;
    if |sep| <= |head| {
      assert head[..|sep|] == s[..|sep|];
    }
  }

  /** strings.Replace(s, sep, r, -1) is strings.Join(strings.Split(s, sep), r). */
  lemma {:induction false} ReplaceAllSplit(s: string, sep: string, r: string)
    requires |sep| > 0
    ensures ReplaceAll(s, sep, r) == Join(Split(s, sep), r)
    decreases |s|
  {
    if IsPrefix(sep, s) {
      ReplaceAllSplit(s[|sep|..], sep, r);
      JoinCons("", Split(s[|sep|..], sep), r);
    } else if |s| > 0 {
      ReplaceAllSplit(s[1..], sep, r);
      JoinExtendHead(s[0], Split(s[1..], sep), r);
    }
  }

  /** The last rune of `t` occurs nowhere else in it, so an occurrence of `t`
      can never end inside another one. */
  predicate LastRuneUnique(t: string) {
    |t| > 0 && forall k :: 0 <= k < |t| - 1 ==> t[k] != t[|t| - 1]
  }

  /** In `p + t + rest`, no occurrence of such a `t` starts inside `p` when `p`
      holds none: one that overran `p` would need the last rune of `t` at an
      earlier index of `t`. */
  lemma NoOccurrenceInside(p: string, t: string, rest: string, k: nat)
    requires LastRuneUnique(t) && k < |p|
    requires forall i :: 0 <= i < |p| ==> !OccursAt(p, t, i)
    ensures !OccursAt(p + t + rest, t, k)
  {
    var s := p + t + rest;
    if k + |t| <= |p| {
      assert !OccursAt(p, t, k);
      assert s[k..k + |t|] == p[k..k + |t|];
    } else {
      var j := k + |t| - 1 - |p|;
      assert 0 <= j < |t| - 1;
      assert s[k + |t| - 1] == t[j];
      OccursRune(s, t, k, |t| - 1);
    }
  }

  /** strings.Replace(s, t, r, -1) on parts joined by `t`, none of which holds
      `t`, replaces exactly the separators. */
  lemma {:induction false} ReplaceAllJoin(parts: seq<string>, t: string, r: string)
    requires LastRuneUnique(t)
    requires forall k :: 0 <= k < |parts| ==> !Contains(parts[k], t)
    ensures ReplaceAll(Join(parts, t), t, r) == Join(parts, r)
    decreases |parts|
  {
    if |parts| <= 1 {
      if |parts| == 0 {
        assert !Contains("", t);
      }
      ReplaceAllAbsent(Join(parts, t), t, r);
    } else {
      var p, rest := parts[0], Join(parts[1..], t);
      var s := p + t + rest;
      assert Join(parts, t) == s;
      ContainsIff(p, t);
      forall k | 0 <= k < |p| ensures !OccursAt(s, t, k) {
        NoOccurrenceInside(p, t, rest, k);
      }
      assert s[|p|..|p| + |t|] == t;
      ReplaceAllFirst(s, t, |p|, r);
      assert s[..|p|] == p && s[|p| + |t|..] == rest;
      ReplaceAllJoin(parts[1..], t, r);
    }
  }

  /** strings.Replace(s, target, repl, 1): only the first occurrence is replaced;
      an empty `target` matches at the start. */
  function ReplaceFirst(s: string, target: string, repl: string): string
    decreases |s|
  {
    if IsPrefix(target, s) then repl + s[|target|..]
    else if |s| == 0 then s
    else [s[0]] + ReplaceFirst(s[1..], target, repl)
  }

  /** A target that does not occur leaves the string unchanged. */
  lemma {:induction false} ReplaceFirstAbsent(s: string, target: string, repl: string)
    requires !Contains(s, target)
    ensures ReplaceFirst(s, target, repl) == s
    decreases |s|
  {
    assert !IsPrefix(target, s);
    if |s| > 0 {
      ReplaceFirstAbsent(s[1..], target, repl);
      assert [s[0]] + s[1..] == s;
    }
  }

  /** strings.Replace(s, target, repl, 1) replaces the first occurrence of
      `target`: the one at `i`, when none starts before it. */
  lemma {:induction false} ReplaceFirstFirst(s: string, target: string, i: nat, repl: string)
    requires OccursAt(s, target, i)
    requires forall k :: 0 <= k < i ==> !OccursAt(s, target, k)
    ensures ReplaceFirst(s, target, repl) == s[..i] + repl + s[i + |target|..]
    decreases i
  {
    if i == 0 {
      ReplaceFirstLeading(s, target, repl);
    } else {
      PrefixOccurs(s, target);
      var t := s[1..];
      assert ReplaceFirst(s, target, repl) == [s[0]] + ReplaceFirst(t, target, repl);
      OccursInTail(s, target, i);
      forall k | 0 <= k < i - 1 ensures !OccursAt(t, target, k) {
        OccursFromTail(s, target, k);
      }
      ReplaceFirstFirst(t, target, i - 1, repl);
      var before, after := t[..i - 1], t[i - 1 + |target|..];
      ConsRegroup(s[0], before, repl, after);
      assert [s[0]] + before == s[..i];
      assert after == s[i + |target|..];
    }
  }

  /** ReplaceFirst replaces the occurrence at `i` when no earlier rune could
      start one. */
  lemma ReplaceFirstAt(s: string, target: string, i: nat, repl: string)
    requires |target| > 0 && OccursAt(s, target, i)
    requires forall k :: 0 <= k < i ==> s[k] != target[0]
    ensures ReplaceFirst(s, target, repl) == s[..i] + repl + s[i + |target|..]
  {
    NoRuneNoOccurs(s, target, 0, i);
    ReplaceFirstFirst(s, target, i, repl);
  }

  /** An occurrence at the start is the one replaced. */
  lemma ReplaceFirstLeading(s: string, target: string, repl: string)
    requires OccursAt(s, target, 0)
    ensures ReplaceFirst(s, target, repl) == s[..0] + repl + s[|target|..]
  {
    assert s[..|target|] == s[0..|target|];
    assert IsPrefix(target, s);
    assert s[..0] + repl == repl;
  }

  /** Prepending a rune to a three-part string extends the first part. */
  lemma ConsRegroup(c: char, a: string, b: string, d: string)
    ensures [c] + (a + b + d) == ([c] + a) + b + d
  {
  }

  /** A string without the first rune of `sub` does not contain `sub`. */
  lemma NoRuneNoContains(s: string, sub: string)
    requires |sub| > 0 && forall k :: 0 <= k < |s| ==> s[k] != sub[0]
    ensures !Contains(s, sub)
  {
    ContainsIff(s, sub);
    forall i | 0 <= i && i + |sub| <= |s| ensures !OccursAt(s, sub, i) {
      assert s[i..i + |sub|][0] == s[i];
    }
  }

  /** The runes strings.Trim, TrimLeft, TrimRight and bytes.TrimSpace cut. */
  function TrimLeft(s: string, cut: set<char>): string
    decreases |s|
  {
    if |s| > 0 && s[0] in cut then TrimLeft(s[1..], cut) else s
  }

  function TrimRight(s: string, cut: set<char>): string
    decreases |s|
  {
    if |s| > 0 && s[|s| - 1] in cut then TrimRight(s[..|s| - 1], cut) else s
  }

  /** strings.Trim(s, cutset): leading and trailing runes of the cut set removed. */
  function Trim(s: string, cut: set<char>): string {
    TrimRight(TrimLeft(s, cut), cut)
  }

  lemma {:induction false} TrimLeftIsSuffix(s: string, cut: set<char>)
    ensures var r := TrimLeft(s, cut);
            |r| <= |s| && r == s[|s| - |r|..] &&
            (forall k :: 0 <= k < |s| - |r| ==> s[k] in cut) &&
            (|r| > 0 ==> r[0] !in cut)
    decreases |s|
  {
    if |s| > 0 && s[0] in cut {
      TrimLeftIsSuffix(s[1..], cut);
    }
  }

  lemma {:induction false} TrimRightIsPrefix(s: string, cut: set<char>)
    ensures var r := TrimRight(s, cut);
            |r| <= |s| && r == s[..|r|] &&
            (forall k :: |r| <= k < |s| ==> s[k] in cut) &&
            (|r| > 0 ==> r[|r| - 1] !in cut)
    decreases |s|
  {
    if |s| > 0 && s[|s| - 1] in cut {
      TrimRightIsPrefix(s[..|s| - 1], cut);
    }
  }

  /** `r` is `s` with the cut-set runes before index `i` and after `r` removed. */
  predicate TrimmedAt(s: string, r: string, i: int, cut: set<char>) {
    0 <= i <= |s| - |r| && r == s[i..i + |r|] &&
    (forall k :: 0 <= k < i ==> s[k] in cut) &&
    (forall k :: i + |r| <= k < |s| ==> s[k] in cut)
  }

  /** Trim keeps a contiguous middle part of `s`, removes only cut-set runes
      around it, and leaves no cut-set rune at either end. */
  lemma TrimSpec(s: string, cut: set<char>)
    ensures var r := Trim(s, cut);
            (exists i :: TrimmedAt(s, r, i, cut)) &&
            (|r| > 0 ==> r[0] !in cut && r[|r| - 1] !in cut)
  {
    var l := TrimLeft(s, cut);
    TrimLeftIsSuffix(s, cut);
    TrimRightIsPrefix(l, cut);
    var r := Trim(s, cut);
    var i := |s| - |l|;
    assert r == l[..|r|];
    assert l[..|r|] == s[i..i + |r|];
    forall k | i + |r| <= k < |s| ensures s[k] in cut {
      assert s[k] == l[k - i];
    }
    assert TrimmedAt(s, r, i, cut);
  }

  /** Trimming leaves nothing exactly when every rune is in the cut set. */
  lemma TrimEmptyIff(s: string, cut: set<char>)
    ensures Trim(s, cut) == [] <==> forall k :: 0 <= k < |s| ==> s[k] in cut
  {
    TrimLeftIsSuffix(s, cut);
    var l := TrimLeft(s, cut);
    TrimRightIsPrefix(l, cut);
    if |l| > 0 {
      assert l[0] !in cut;
      assert s[|s| - |l|] == l[0];
      assert |TrimRight(l, cut)| > 0;
    }
  }

  /** The runes unicode.IsSpace accepts, which bytes.TrimSpace removes. */
  const UnicodeSpace: set<char> :=
    {'\t', '\n', '\U{B}', '\U{C}', '\r', ' ', '\U{85}', '\U{A0}', '\U{1680}',
     '\U{2000}', '\U{2001}', '\U{2002}', '\U{2003}', '\U{2004}', '\U{2005}',
     '\U{2006}', '\U{2007}', '\U{2008}', '\U{2009}', '\U{200A}',
     '\U{2028}', '\U{2029}', '\U{202F}', '\U{205F}', '\U{3000}'}

  /** bytes.TrimSpace. */
  function TrimSpace(s: string): string {
    Trim(s, UnicodeSpace)
  }

  /** ASCII case folding of one rune (strings.ToLower on ASCII input). */
  function LowerChar(c: char): char {
    if 'A' <= c <= 'Z' then (c as int + 32) as char else c
  }

  /** strings.ToLower, restricted to ASCII case folding. */
  function ToLower(s: string): string
    decreases |s|
  {
    if |s| == 0 then [] else [LowerChar(s[0])] + ToLower(s[1..])
  }

  /** Folding twice is folding once. */
  lemma {:induction false} ToLowerIdempotent(s: string)
    ensures ToLower(ToLower(s)) == ToLower(s)
    decreases |s|
  {
    if |s| > 0 {
      ToLowerIdempotent(s[1..]);
      var t := ToLower(s);
      assert t[1..] == ToLower(s[1..]);
    }
  }

  /** A string without upper-case ASCII letters is its own lower-case form. */
  lemma {:induction false} ToLowerFixed(s: string)
    requires forall k :: 0 <= k < |s| ==> !('A' <= s[k] <= 'Z')
    ensures ToLower(s) == s
    decreases |s|
  {
    if |s| > 0 {
      ToLowerFixed(s[1..]);
      assert [s[0]] + s[1..] == s;
    }
  }

  /** The decimal digit for `d`. */
  function DigitChar(d: int): char
    requires 0 <= d < 10
  {
    ('0' as int + d) as char
  }

  /** Decimal digits of a natural number, most significant first, no leading zero. */
  function Digits(n: nat): string
    decreases n
  {
    if n < 10 then [DigitChar(n)] else Digits(n / 10) + [DigitChar(n % 10)]
  }

  /** strconv.Itoa. */
  function Itoa(n: int): string {
    if n < 0 then "-" + Digits(-n) else Digits(n)
  }

  /** The value of a string of decimal digits. */
  function DigitsValue(s: string): int
    decreases |s|
  {
    if |s| == 0 then 0 else DigitsValue(s[..|s| - 1]) * 10 + (s[|s| - 1] as int - '0' as int)
  }

  /** Reads back what Itoa writes (strconv.Atoi on well-formed input). */
  function Atoi(s: string): int {
    if |s| > 0 && s[0] == '-' then -DigitsValue(s[1..]) else DigitsValue(s)
  }

  lemma {:induction false} DigitsRoundTrip(n: nat)
    ensures |Digits(n)| > 0 && '0' <= Digits(n)[0] <= '9'
    ensures Digits(n)[0] == '0' ==> n == 0
    ensures forall k :: 0 <= k < |Digits(n)| ==> '0' <= Digits(n)[k] <= '9'
    ensures DigitsValue(Digits(n)) == n
    decreases n
  {
    if n >= 10 {
      DigitsRoundTrip(n / 10);
      var d := Digits(n);
      assert d[..|d| - 1] == Digits(n / 10);
    }
  }

  /** Itoa is injective: Atoi recovers the number from its decimal form. */
  lemma ItoaRoundTrip(n: int)
    ensures Atoi(Itoa(n)) == n
    ensures |Itoa(n)| > 0
  {
    if n < 0 {
      DigitsRoundTrip(-n);
      assert Itoa(n)[1..] == Digits(-n);
    } else {
      DigitsRoundTrip(n);
    }
  }
}
