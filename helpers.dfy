/** The text helpers of Client/src/utils/helpers.js: cutting a long text
    down for previews, and the two-letter initials shown in avatars. */
module Helpers {
  import opened Common
  import opened Text

  /** The default of `truncateText`'s `maxLength` parameter. */
  const DefaultMaxLength: nat := 100

  /** `truncateText(text, maxLength)`, with None for an omitted `maxLength`:
      a text that fits is returned as it is, a longer one is cut to
      `maxLength` characters and followed by `...`. */
  function TruncateText(text: string, maxLength: Option<nat>): (r: string)
    ensures var m := if maxLength.Some? then maxLength.value else DefaultMaxLength;
      && (|text| <= m ==> r == text)
      && (|text| > m ==> |r| == m + 3 && r[..m] == text[..m] && r[m..] == "...")
  {
    var m := if maxLength.Some? then maxLength.value else DefaultMaxLength;
    if |text| <= m then text else text[..m] + "..."
  }

  /** A truncated text is never longer than the bound plus the ellipsis, it
      starts with as much of the text as fits, and truncating it again with
      room for the ellipsis leaves it alone. */
  lemma TruncateBounds(text: string, m: nat)
    ensures |TruncateText(text, Some(m))| <= m + 3
    ensures StartsWith(TruncateText(text, Some(m)), Take(text, m))
    ensures TruncateText(TruncateText(text, Some(m)), Some(m + 3)) == TruncateText(text, Some(m))
  {
  }

  /** The first characters of the non-empty words, in order: `word[0]` of an
      empty word is `undefined`, which `join('')` writes as nothing. */
  function Firsts(words: seq<string>): (r: string)
    ensures |r| <= |words|
    ensures forall c :: c in r ==> exists k :: 0 <= k < |words| && words[k] != [] && words[k][0] == c
  {
    if words == [] then []
    else
      var rest := Firsts(words[1..]);
      assert forall c :: c in rest ==> exists k :: 1 <= k < |words| && words[k] != [] && words[k][0] == c by {
        forall c | c in rest ensures exists k :: 1 <= k < |words| && words[k] != [] && words[k][0] == c {
          var k :| 0 <= k < |words[1..]| && words[1..][k] != [] && words[1..][k][0] == c;
          assert words[k + 1] == words[1..][k];
        }
      }
      (if words[0] == [] then [] else [words[0][0]]) + rest
  }

  /** `getInitials(name)`: the first letters of the space-separated words,
      upper-cased, at most two of them. */
  function GetInitials(name: string): (r: string)
    ensures |r| <= 2
    ensures ' ' !in r
  {
    var words := Split(name, ' ');
    SplitPieces(name, ' ');
    var firsts := Firsts(words);
    forall c | c in firsts ensures c != ' ' {
      var k :| 0 <= k < |words| && words[k] != [] && words[k][0] == c;
      assert ' ' !in words[k];
    }
    var up := Upper(firsts);
    forall k | 0 <= k < |up| ensures up[k] != ' ' {
      assert firsts[k] in firsts;
    }
    Take(up, 2)
  }

  /** Spaces before the first word contribute nothing. */
  lemma InitialsSkipLeadingSpace(name: string)
    ensures GetInitials([' '] + name) == GetInitials(name)
  {
    var s := [' '] + name;
    assert s[1..] == name;
    assert Split(s, ' ') == [[]] + Split(name, ' ');
    assert ([[]] + Split(name, ' '))[1..] == Split(name, ' ');
  }

  /** The words of a split that does not start with a space: the first one
      starts with the first character. */
  lemma SplitFirstChar(s: string, sep: char)
    requires s != [] && s[0] != sep
    ensures Split(s, sep)[0] != [] && Split(s, sep)[0][0] == s[0]
  {
  }

  /** A single word gives its upper-cased first letter. */
  lemma InitialsOfOneWord(a: string)
    requires a != [] && ' ' !in a
    ensures GetInitials(a) == [UpperChar(a[0])]
  {
    SplitHead(a, ' ');
    assert Split(a, ' ') == [a];
    assert Firsts([a]) == [a[0]];
  }

  /** A word followed by a space and more text starting with a letter gives
      the two upper-cased first letters; later words are dropped. */
  lemma InitialsOfTwoWords(a: string, t: string)
    requires a != [] && ' ' !in a && t != [] && t[0] != ' '
    ensures GetInitials(a + [' '] + t) == [UpperChar(a[0]), UpperChar(t[0])]
  {
    var s := a + [' '] + t;
    forall k | 0 <= k < |a| ensures s[k] != ' ' {
      assert s[k] == a[k];
    }
    IndexOfAt(s, ' ', |a|);
    SplitHead(s, ' ');
    assert s[..|a|] == a && s[|a| + 1..] == t;
    var tail := Split(t, ' ');
    SplitFirstChar(t, ' ');
    InitialsOfWords(Split(s, ' '), a, tail);
  }

  /** Words `a` and then `tail`, both starting with a letter: the initials are
      their first letters. */
  lemma InitialsOfWords(words: seq<string>, a: string, tail: seq<string>)
    requires words == [a] + tail && a != [] && tail != [] && tail[0] != []
    ensures Take(Upper(Firsts(words)), 2) == [UpperChar(a[0]), UpperChar(tail[0][0])]
  {
    assert words[1..] == tail;
    assert Firsts(tail) == [tail[0][0]] + Firsts(tail[1..]);
    assert Firsts(words) == [a[0]] + Firsts(tail);
    var f := Firsts(words);
    assert f[0] == a[0] && f[1] == tail[0][0];
  }

  /** An empty word (from a doubled space) contributes no initial. */
  lemma FirstsSkipsEmpty(ws: seq<string>)
    ensures Firsts([[]] + ws) == Firsts(ws)
  {
    assert ([[]] + ws)[1..] == ws;
  }

  /** A non-empty word contributes its first character, ahead of the rest. */
  lemma FirstsOfWord(w: string, ws: seq<string>)
    requires w != []
    ensures Firsts([w] + ws) == [w[0]] + Firsts(ws)
  {
    assert ([w] + ws)[1..] == ws;
  }

  /** A run of `n` spaces. */
  function Spaces(n: nat): (r: string)
    ensures |r| == n && forall k :: 0 <= k < n ==> r[k] == ' '
  {
    seq(n, _ => ' ')
  }

  /** Spaces in front of a word add only empty words, which give no
      initials. */
  lemma {:induction false} FirstsAfterSpaces(n: nat, t: string)
    ensures Firsts(Split(Spaces(n) + t, ' ')) == Firsts(Split(t, ' '))
    decreases n
  {
    if n > 0 {
      var s := Spaces(n) + t;
      assert s[1..] == Spaces(n - 1) + t;
      assert Split(s, ' ') == [[]] + Split(s[1..], ' ');
      FirstsSkipsEmpty(Split(s[1..], ' '));
      FirstsAfterSpaces(n - 1, t);
    } else {
      assert Spaces(n) + t == t;
    }
  }

  /** A space-free word, a space, and then any text: the word comes first
      and the text splits as it would alone. */
  lemma SplitAfterWord(a: string, rest: string)
    requires ' ' !in a
    ensures Split(a + [' '] + rest, ' ') == [a] + Split(rest, ' ')
  {
    var s := a + [' '] + rest;
    forall k | 0 <= k < |a| ensures s[k] != ' ' {
      assert s[k] == a[k];
    }
    IndexOfAt(s, ' ', |a|);
    SplitHead(s, ' ');
    assert s[..|a|] == a && s[|a| + 1..] == rest;
  }

  /** Two words separated by any positive number of spaces give their two
      upper-cased first letters: `"a  b"` splits to `["a", "", "b"]` and still
      gives "AB". */
  lemma InitialsOfSpacedWords(a: string, n: nat, t: string)
    requires a != [] && ' ' !in a && n >= 1 && t != [] && t[0] != ' '
    ensures GetInitials(a + Spaces(n) + t) == [UpperChar(a[0]), UpperChar(t[0])]
  {
    var rest := Spaces(n - 1) + t;
    assert a + Spaces(n) + t == a + [' '] + rest;
    SplitAfterWord(a, rest);
    FirstsOfWord(a, Split(rest, ' '));
    FirstsAfterSpaces(n - 1, t);
    FirstsOfWord(a, Split(t, ' '));
    SplitFirstChar(t, ' ');
    InitialsOfWords([a] + Split(t, ' '), a, Split(t, ' '));
  }
}
