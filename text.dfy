/** The JavaScript string operations the server and client rely on
    (`trim`, `toLowerCase`, `toUpperCase`, `includes`, `startsWith`, `split`,
    `join`, `substring`, `replace` with a one-character pattern), written out
    over `seq<char>`. */
module Text {
  import opened Common

  /** A subset of the white space `String.prototype.trim` removes: the ASCII
      spaces plus no-break space, byte-order mark and the line/paragraph
      separators. */
  predicate IsSpace(c: char)
  {
    c == ' ' || c == '\t' || c == '\n' || c == '\r' || c == '\U{000B}' || c == '\U{000C}'
    || c == '\U{00A0}' || c == '\U{FEFF}' || c == '\U{2028}' || c == '\U{2029}'
  }

  function TrimStart(s: string): (r: string)
    ensures |r| <= |s| && r == s[|s| - |r|..]
    ensures r != [] ==> !IsSpace(r[0])
    ensures forall k :: 0 <= k < |s| - |r| ==> IsSpace(s[k])
  {
    if s != [] && IsSpace(s[0]) then TrimStart(s[1..]) else s
  }

  function TrimEnd(s: string): (r: string)
    ensures |r| <= |s| && r == s[..|r|]
    ensures r != [] ==> !IsSpace(r[|r| - 1])
    ensures forall k :: |r| <= k < |s| ==> IsSpace(s[k])
  {
    if s != [] && IsSpace(s[|s| - 1]) then TrimEnd(s[..|s| - 1]) else s
  }

  /** `s.trim()`. */
  function Trim(s: string): string
  {
    TrimEnd(TrimStart(s))
  }

  predicate IsTrimmed(s: string)
  {
    s != [] ==> !IsSpace(s[0]) && !IsSpace(s[|s| - 1])
  }

  /** `trim` removes exactly a run of white space at each end: the result is a
      contiguous piece of the input, everything cut off is white space, and the
      result neither starts nor ends with white space. */
  lemma TrimSpec(s: string)
    ensures exists i, j ::
              && 0 <= i <= j <= |s| && Trim(s) == s[i..j]
              && (forall k :: 0 <= k < i ==> IsSpace(s[k]))
              && (forall k :: j <= k < |s| ==> IsSpace(s[k]))
    ensures IsTrimmed(Trim(s))
  {
    var i, j := TrimCut(s);
  }

  /** The two cut points of `trim`. */
  lemma TrimCut(s: string) returns (i: nat, j: nat)
    ensures i <= j <= |s| && Trim(s) == s[i..j]
    ensures forall k :: 0 <= k < i ==> IsSpace(s[k])
    ensures forall k :: j <= k < |s| ==> IsSpace(s[k])
    ensures IsTrimmed(Trim(s))
  {
    var a := TrimStart(s);
    var b := TrimEnd(a);
    i, j := |s| - |a|, |s| - |a| + |b|;
    Cut(s, a, b);
  }

  /** A suffix `a` of `s` after white space, then a prefix `b` of `a` before
      white space, is the slice `s[i..j]` with only white space outside it. */
  lemma Cut(s: string, a: string, b: string)
    requires |a| <= |s| && a == s[|s| - |a|..] && forall k :: 0 <= k < |s| - |a| ==> IsSpace(s[k])
    requires |b| <= |a| && b == a[..|b|] && forall k :: |b| <= k < |a| ==> IsSpace(a[k])
    ensures b == s[|s| - |a|..|s| - |a| + |b|]
    ensures forall k :: |s| - |a| + |b| <= k < |s| ==> IsSpace(s[k])
  {
    var i := |s| - |a|;
    forall k | i + |b| <= k < |s| ensures IsSpace(s[k]) {
      assert a[k - i] == s[k];
    }
  }

  /** Trimming twice is trimming once. */
  lemma TrimIdempotent(s: string)
    ensures Trim(Trim(s)) == Trim(s)
  {
    TrimSpec(s);
    TrimmedIsFixed(Trim(s));
  }

  lemma TrimmedIsFixed(s: string)
    requires IsTrimmed(s)
    ensures Trim(s) == s
  {
  }

  /** `s.trim()` is the empty string exactly when `s` is all white space
      (the JavaScript test `!s.trim()`). */
  lemma TrimEmptyIff(s: string)
    ensures Trim(s) == [] <==> forall k :: 0 <= k < |s| ==> IsSpace(s[k])
  {
    TrimSpec(s);
    if forall k :: 0 <= k < |s| ==> IsSpace(s[k]) {
      assert TrimStart(s) == [];
    }
  }

  lemma SliceMembers<T>(s: seq<T>, i: nat, j: nat)
    requires i <= j <= |s|
    ensures forall x :: x in s[i..j] ==> x in s
  {
    forall x | x in s[i..j] ensures x in s {
      var m :| 0 <= m < j - i && s[i..j][m] == x;
      assert s[i + m] == x;
    }
  }

  function LowerChar(c: char): char
  {
    if 'A' <= c <= 'Z' then (c as int + 32) as char else c
  }

  function UpperChar(c: char): char
  {
    if 'a' <= c <= 'z' then (c as int - 32) as char else c
  }

  /** `s.toLowerCase()` (ASCII letters only). */
  function Lower(s: string): (r: string)
    ensures |r| == |s|
    ensures forall k :: 0 <= k < |s| ==> r[k] == LowerChar(s[k])
  {
    seq(|s|, k requires 0 <= k < |s| => LowerChar(s[k]))
  }

  /** `s.toUpperCase()` (ASCII letters only). */
  function Upper(s: string): (r: string)
    ensures |r| == |s|
    ensures forall k :: 0 <= k < |s| ==> r[k] == UpperChar(s[k])
  {
    seq(|s|, k requires 0 <= k < |s| => UpperChar(s[k]))
  }

  /** Lower-casing is idempotent, so a stored lower-cased e-mail is unchanged
      by lower-casing it again. */
  lemma LowerIdempotent(s: string)
    ensures Lower(Lower(s)) == Lower(s)
  {
    assert forall k :: 0 <= k < |s| ==> LowerChar(LowerChar(s[k])) == LowerChar(s[k]);
  }

  /** `s.startsWith(p)`. */
  predicate StartsWith(s: string, p: string)
  {
    |p| <= |s| && s[..|p|] == p
  }

  /** `s.includes(t)`. */
  predicate Includes(s: string, t: string)
    decreases |s|
  {
    StartsWith(s, t) || (s != [] && Includes(s[1..], t))
  }

  /** `t` occurs in `s` starting at position `i`. */
  predicate OccursAt(s: string, t: string, i: int)
  {
    0 <= i <= |s| - |t| && s[i..i + |t|] == t
  }

  /** `includes` holds exactly when `t` occurs at some position of `s`. */
  lemma {:induction false} IncludesIff(s: string, t: string)
    ensures Includes(s, t) <==> exists i :: OccursAt(s, t, i)
    decreases |s|
  {
    if StartsWith(s, t) {
      assert OccursAt(s, t, 0);
    }
    if s != [] {
      IncludesIff(s[1..], t);
      if Includes(s[1..], t) {
        var i :| OccursAt(s[1..], t, i);
        assert s[i + 1..i + 1 + |t|] == s[1..][i..i + |t|];
        assert OccursAt(s, t, i + 1);
      }
      if exists i :: OccursAt(s, t, i) {
        var i :| OccursAt(s, t, i);
        if i > 0 {
          assert s[1..][i - 1..i - 1 + |t|] == s[i..i + |t|];
          assert OccursAt(s[1..], t, i - 1);
        }
      }
    } else {
      if exists i :: OccursAt(s, t, i) {
        var i :| OccursAt(s, t, i);
        assert s[..|t|] == s[i..i + |t|];
      }
    }
  }

  lemma IncludesEmpty(s: string)
    ensures Includes(s, "")
  {
    assert StartsWith(s, "");
  }

  /** `s.substring(0, n)` for a natural `n`. */
  function Take(s: string, n: nat): (r: string)
    ensures |r| == if |s| <= n then |s| else n
    ensures r == s[..|r|]
  {
    if |s| <= n then s else s[..n]
  }

  /** `s.split(sep)` for a one-character separator: the maximal runs between
      separators, so there is always at least one piece and "" splits to [""]. */
  function Split(s: string, sep: char): (r: seq<string>)
    ensures |r| >= 1
  {
    if s == [] then [[]]
    else
      var rest := Split(s[1..], sep);
      if s[0] == sep then [[]] + rest else [[s[0]] + rest[0]] + rest[1..]
  }

  /** `parts.join(sep)`. */
  function Join(parts: seq<string>, sep: char): string
  {
    if parts == [] then []
    else if |parts| == 1 then parts[0]
    else parts[0] + [sep] + Join(parts[1..], sep)
  }

  /** Splitting and re-joining on the same separator gives back the input. */
  lemma {:induction false} JoinSplit(s: string, sep: char)
    ensures Join(Split(s, sep), sep) == s
  {
    if s != [] {
      var rest := Split(s[1..], sep);
      JoinSplit(s[1..], sep);
      if s[0] == sep {
        assert Split(s, sep) == [[]] + rest;
        assert ([[]] + rest)[1..] == rest;
      } else {
        var parts := [[s[0]] + rest[0]] + rest[1..];
        assert Split(s, sep) == parts;
        if |rest| == 1 {
          assert Join(rest, sep) == rest[0];
        } else {
          assert parts[1..] == rest[1..];
          assert Join(rest, sep) == rest[0] + [sep] + Join(rest[1..], sep);
        }
      }
    }
  }

  /** No piece of a split contains the separator, and there is one piece more
      than there are separators. */
  lemma {:induction false} SplitPieces(s: string, sep: char)
    ensures forall k :: 0 <= k < |Split(s, sep)| ==> sep !in Split(s, sep)[k]
    ensures |Split(s, sep)| == Count(s, sep) + 1
  {
    if s != [] {
      SplitPieces(s[1..], sep);
      var rest := Split(s[1..], sep);
      if s[0] != sep {
        var parts := [[s[0]] + rest[0]] + rest[1..];
        assert Split(s, sep) == parts;
        forall k | 0 <= k < |parts| ensures sep !in parts[k] {
          if k > 0 {
            assert parts[k] == rest[k];
          }
        }
      } else {
        assert Split(s, sep) == [[]] + rest;
      }
    }
  }

  /** The first piece of a split is everything before the first separator,
      and the remaining pieces are the split of everything after it. */
  lemma {:induction false} SplitHead(s: string, sep: char)
    ensures Split(s, sep)[0] == s[..IndexOf(s, sep)]
    ensures IndexOf(s, sep) < |s| ==> Split(s, sep)[1..] == Split(s[IndexOf(s, sep) + 1..], sep)
    ensures IndexOf(s, sep) == |s| ==> Split(s, sep) == [s]
  {
    if s != [] && s[0] != sep {
      var t := s[1..];
      SplitHead(t, sep);
      var j := IndexOf(t, sep);
      assert IndexOf(s, sep) == j + 1;
      var rest := Split(t, sep);
      assert Split(s, sep) == [[s[0]] + rest[0]] + rest[1..];
      HeadSlices(s, j);
    }
  }

  /** How the slices of `s` relate to those of `s[1..]`. */
  lemma HeadSlices<T>(s: seq<T>, j: nat)
    requires s != [] && j < |s|
    ensures s == [s[0]] + s[1..]
    ensures s[..j + 1] == [s[0]] + s[1..][..j]
    ensures j + 1 < |s| ==> s[j + 2..] == s[1..][j + 1..]
  {
  }

  /** The first occurrence of `c` is at `i` when `s[i]` is `c` and no earlier
      character is. */
  lemma IndexOfAt(s: string, c: char, i: nat)
    requires i < |s| && s[i] == c
    requires forall k :: 0 <= k < i ==> s[k] != c
    ensures IndexOf(s, c) == i
  {
    var j := IndexOf(s, c);
    forall k | 0 <= k < j ensures s[k] != c {
      assert s[..j][k] == s[k];
    }
  }

  /** Position of the first `c` in `s` (`|s|` when there is none). */
  function IndexOf(s: string, c: char): (i: nat)
    ensures i <= |s|
    ensures c !in s[..i]
    ensures i < |s| ==> s[i] == c
    ensures i == |s| <==> c !in s
  {
    if s == [] then 0
    else if s[0] == c then 0
    else
      assert s[..1 + IndexOf(s[1..], c)] == [s[0]] + s[1..][..IndexOf(s[1..], c)];
      1 + IndexOf(s[1..], c)
  }

  /** `s.replace(c, d)` with one-character strings, scanning left to right and
      stopping at the first match. */
  function ReplaceFirst(s: string, c: char, d: char): (r: string)
    ensures |r| == |s|
  {
    if s == [] then []
    else if s[0] == c then [d] + s[1..]
    else [s[0]] + ReplaceFirst(s[1..], c, d)
  }

  /** Only the first occurrence changes: everything before it and everything
      after it is kept, and a string without `c` is unchanged. */
  lemma {:induction false} ReplaceFirstSpec(s: string, c: char, d: char)
    ensures ReplaceFirst(s, c, d) ==
      if IndexOf(s, c) < |s| then s[..IndexOf(s, c)] + [d] + s[IndexOf(s, c) + 1..] else s
  {
    if s != [] && s[0] != c {
      var t := s[1..];
      ReplaceFirstSpec(t, c, d);
      var i := IndexOf(t, c);
      assert IndexOf(s, c) == i + 1;
      assert s == [s[0]] + t;
      if i < |t| {
        ConsSplice(s[0], t, i, d);
      }
    }
  }

  /** Putting `x` in front of a one-element splice of `t` at `i` is the same
      splice of `[x] + t` at `i + 1`. */
  lemma ConsSplice<T>(x: T, t: seq<T>, i: nat, d: T)
    requires i < |t|
    ensures [x] + (t[..i] + [d] + t[i + 1..]) == ([x] + t)[..i + 1] + [d] + ([x] + t)[i + 2..]
  {
    assert ([x] + t)[..i + 1] == [x] + t[..i];
    assert ([x] + t)[i + 2..] == t[i + 1..];
  }

  /** The comma lists of the controllers:
      `v ? v.split(',').map(x => x.trim()) : []`. */
  function CommaList(v: Option<string>): (r: seq<string>)
    ensures !Truthy(v) ==> r == []
    ensures Truthy(v) ==> |r| == |Split(v.value, ',')|
    ensures Truthy(v) ==> forall k :: 0 <= k < |r| ==> r[k] == Trim(Split(v.value, ',')[k])
  {
    if Truthy(v) then
      var parts := Split(v.value, ',');
      seq(|parts|, k requires 0 <= k < |parts| => Trim(parts[k]))
    else []
  }

  /** A non-empty comma list has one entry per comma-separated field, each
      trimmed and free of commas. */
  lemma CommaListSpec(v: string)
    requires v != ""
    ensures |CommaList(Some(v))| == Count(v, ',') + 1
    ensures forall k :: 0 <= k < |CommaList(Some(v))| ==>
      IsTrimmed(CommaList(Some(v))[k]) && ',' !in CommaList(Some(v))[k]
  {
    var parts := Split(v, ',');
    SplitPieces(v, ',');
    forall k | 0 <= k < |parts|
      ensures IsTrimmed(Trim(parts[k])) && ',' !in Trim(parts[k])
    {
      TrimSpec(parts[k]);
      var i, j :| 0 <= i <= j <= |parts[k]| && Trim(parts[k]) == parts[k][i..j];
      SliceMembers(parts[k], i, j);
    }
  }

  /** The `trim: true` schema setter on an array of strings. */
  function TrimAll(items: seq<string>): (r: seq<string>)
    ensures |r| == |items|
    ensures forall k :: 0 <= k < |items| ==> r[k] == Trim(items[k])
  {
    seq(|items|, k requires 0 <= k < |items| => Trim(items[k]))
  }

  /** The trimmed comma lists the controllers build pass the schema setter
      unchanged. */
  lemma TrimAllCommaList(v: Option<string>)
    ensures TrimAll(CommaList(v)) == CommaList(v)
  {
    var t := CommaList(v);
    forall k | 0 <= k < |t| ensures Trim(t[k]) == t[k] {
      TrimIdempotent(Split(v.value, ',')[k]);
    }
  }
}
