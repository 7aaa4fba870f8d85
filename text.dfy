/**
 * The string operations of the two runtimes the application is written for:
 * Python's str.strip(), str.split() and ' '.join(...), JavaScript's trim(),
 * split(c) and join(sep), and the case-insensitive containment that the
 * database's icontains lookup performs.
 */
module Text {

  /** Whose whitespace rule applies: Python's str.isspace() or JavaScript's trim(). */
  datatype Runtime = Python | JavaScript

  /** Whitespace as the runtime sees it (Unicode Zs, line and paragraph separators, C0 separators). */
  predicate IsSpace(c: char, rt: Runtime)
  {
    || c == ' ' || c == '\t' || c == '\n' || c == '\r' || c == '\U{B}' || c == '\U{C}'
    || c == '\U{A0}' || c == '\U{1680}' || ('\U{2000}' <= c <= '\U{200A}')
    || c == '\U{2028}' || c == '\U{2029}' || c == '\U{202F}' || c == '\U{205F}' || c == '\U{3000}'
    || (rt == Python && (('\U{1C}' <= c <= '\U{1F}') || c == '\U{85}'))
    || (rt == JavaScript && c == '\U{FEFF}')
  }

  predicate NoSpace(s: string, rt: Runtime)
  {
    forall i :: 0 <= i < |s| ==> !IsSpace(s[i], rt)
  }

  predicate AllSpace(s: string, rt: Runtime)
  {
    forall i :: 0 <= i < |s| ==> IsSpace(s[i], rt)
  }

  /** Neither end of s is whitespace. */
  predicate Trimmed(s: string, rt: Runtime)
  {
    s == [] || (!IsSpace(s[0], rt) && !IsSpace(s[|s| - 1], rt))
  }

  /** s without its leading whitespace. */
  function TrimStart(s: string, rt: Runtime): (r: string)
    ensures |r| <= |s| && r == s[|s| - |r|..]
    ensures AllSpace(s[..|s| - |r|], rt)
    ensures r == [] || !IsSpace(r[0], rt)
    decreases |s|
  {
    if s != [] && IsSpace(s[0], rt) then TrimStart(s[1..], rt) else s
  }

  /** s without its trailing whitespace. */
  function TrimEnd(s: string, rt: Runtime): (r: string)
    ensures |r| <= |s| && r == s[..|r|]
    ensures AllSpace(s[|r|..], rt)
    ensures r == [] || !IsSpace(r[|r| - 1], rt)
    decreases |s|
  {
    if s != [] && IsSpace(s[|s| - 1], rt) then
      var r := TrimEnd(s[..|s| - 1], rt);
      assert s[|r|..] == s[..|s| - 1][|r|..] + [s[|s| - 1]];
      r
    else s
  }

  /** str.strip() in Python, String.prototype.trim() in JavaScript. */
  function Strip(s: string, rt: Runtime): (r: string)
    ensures Trimmed(r, rt)
    ensures r == [] <==> AllSpace(s, rt)
    ensures Trimmed(s, rt) ==> r == s
  {
    var t := TrimStart(s, rt);
    assert t == [] ==> s[..|s|] == s;
    assert t != [] ==> s[|s| - |t|] == t[0];
    var r := TrimEnd(t, rt);
    assert r == [] ==> t[|r|..] == t;
    assert Trimmed(s, rt) && s != [] ==> t == s;
    r
  }

  /** The longest prefix of s that holds no (Python) whitespace. */
  function TakeWord(s: string): (w: string)
    ensures |w| <= |s| && w == s[..|w|] && NoSpace(w, Python)
    ensures |w| < |s| ==> IsSpace(s[|w|], Python)
  {
    if s == [] || IsSpace(s[0], Python) then [] else [s[0]] + TakeWord(s[1..])
  }

  /** Python's str.split() without argument: the maximal runs of non-whitespace, in order. */
  function Words(s: string): seq<string>
    decreases |s|
  {
    var t := TrimStart(s, Python);
    if t == [] then []
    else
      var w := TakeWord(t);
      [w] + Words(t[|w|..])
  }

  /** parts[0] + sep + parts[1] + ... : Python's sep.join(parts), JavaScript's parts.join(sep). */
  function JoinWith(parts: seq<string>, sep: string): string
  {
    if |parts| == 0 then ""
    else if |parts| == 1 then parts[0]
    else parts[0] + sep + JoinWith(parts[1..], sep)
  }

  /** ' '.join(s.split()): every whitespace run becomes one space, both ends trimmed. */
  function Collapse(s: string): string
  {
    JoinWith(Words(s), " ")
  }

  /** JavaScript's s.split(c) for a one-character separator: never empty. */
  function SplitOn(s: string, c: char): (parts: seq<string>)
    ensures |parts| >= 1
    ensures forall i :: 0 <= i < |parts| ==> c !in parts[i]
    decreases |s|
  {
    if s == [] then [""]
    else
      var rest := SplitOn(s[1..], c);
      if s[0] == c then [""] + rest else [[s[0]] + rest[0]] + rest[1..]
  }

  /** How many times c occurs in s. */
  function Count(s: string, c: char): nat
  {
    if s == [] then 0 else (if s[0] == c then 1 else 0) + Count(s[1..], c)
  }

  /** ASCII lower-casing of one character; other characters are left as they are. */
  function Lower(c: char): (r: char)
    ensures !('A' <= r <= 'Z')
    ensures 'A' <= c <= 'Z' ==> 'a' <= r <= 'z'
    ensures !('A' <= c <= 'Z') ==> r == c
  {
    if 'A' <= c <= 'Z' then (c as int + 32) as char else c
  }

  /**
   * ASCII upper-casing of one character; other characters are left as they
   * are. Upper-casing loses nothing that lower-casing keeps: both forms
   * lower-case to the same character.
   */
  function Upper(c: char): (r: char)
    ensures !('a' <= r <= 'z')
    ensures 'a' <= c <= 'z' ==> 'A' <= r <= 'Z'
    ensures !('a' <= c <= 'z') ==> r == c
    ensures Lower(r) == Lower(c)
  {
    if 'a' <= c <= 'z' then (c as int - 32) as char else c
  }

  function LowerAll(s: string): (r: string)
    ensures |r| == |s|
  {
    seq(|s|, i requires 0 <= i < |s| => Lower(s[i]))
  }

  /** needle occurs in hay as a contiguous run. */
  predicate IsSubstring(needle: string, hay: string)
  {
    exists i :: 0 <= i <= |hay| - |needle| && OccursAt(needle, hay, i)
  }

  predicate OccursAt(needle: string, hay: string, i: int)
    requires 0 <= i <= |hay| - |needle|
  {
    hay[i..i + |needle|] == needle
  }

  /** The icontains lookup: needle occurs in hay when both are lower-cased. */
  predicate ContainsIgnoreCase(hay: string, needle: string)
  {
    IsSubstring(LowerAll(needle), LowerAll(hay))
  }

  // ---------------------------------------------------------------------------
  // Lemmas

  /** Lower-casing twice is lower-casing once. */
  lemma {:induction false} LowerAllIdempotent(s: string)
    ensures LowerAll(LowerAll(s)) == LowerAll(s)
  {
    var l := LowerAll(s);
    forall i | 0 <= i < |s|
      ensures LowerAll(l)[i] == l[i]
    {
      assert !('A' <= l[i] <= 'Z');
    }
  }

  /** The icontains lookup does not see the case of either argument: lower-casing one first changes nothing. */
  lemma {:induction false} ContainsIgnoreCaseIgnoresCase(hay: string, needle: string)
    ensures ContainsIgnoreCase(LowerAll(hay), needle) == ContainsIgnoreCase(hay, needle)
    ensures ContainsIgnoreCase(hay, LowerAll(needle)) == ContainsIgnoreCase(hay, needle)
  {
    LowerAllIdempotent(hay);
    LowerAllIdempotent(needle);
  }

  lemma {:induction false} TrimStartOfTrimmed(s: string, rt: Runtime)
    requires s == [] || !IsSpace(s[0], rt)
    ensures TrimStart(s, rt) == s
  {
  }

  lemma {:induction false} TakeWordOfWordThenSpace(w: string, rest: string)
    requires NoSpace(w, Python)
    requires rest == [] || IsSpace(rest[0], Python)
    ensures TakeWord(w + rest) == w
    decreases |w|
  {
    if w != [] {
      assert (w + rest)[1..] == w[1..] + rest;
      TakeWordOfWordThenSpace(w[1..], rest);
    }
  }

  /** Leading whitespace does not change the words. */
  lemma {:induction false} WordsAfterSpace(s: string)
    requires s != [] && IsSpace(s[0], Python)
    ensures Words(s) == Words(s[1..])
  {
    assert TrimStart(s, Python) == TrimStart(s[1..], Python);
  }

  /** A word followed by a space and more text splits into that word and the words of the rest. */
  lemma {:induction false} WordsOfWordThenSpace(w: string, tail: string)
    requires w != [] && NoSpace(w, Python)
    ensures Words(w + " " + tail) == [w] + Words(tail)
  {
    var j := w + " " + tail;
    assert j == w + (" " + tail);
    TrimStartOfTrimmed(j, Python);
    TakeWordOfWordThenSpace(w, " " + tail);
    assert j[|w|..] == " " + tail;
    WordsAfterSpace(" " + tail);
    assert (" " + tail)[1..] == tail;
  }

  lemma {:induction false} WordsOfSingleWord(w: string)
    requires w != [] && NoSpace(w, Python)
    ensures Words(w) == [w]
  {
    TrimStartOfTrimmed(w, Python);
    TakeWordOfWordThenSpace(w, []);
    assert w + [] == w;
    assert w[|w|..] == [];
  }

  lemma {:induction false} JoinCons(ps: seq<string>, sep: string)
    requires |ps| >= 2
    ensures JoinWith(ps, sep) == ps[0] + sep + JoinWith(ps[1..], sep)
  {
  }

  lemma {:induction false} WordsOfJoinStep(w: string, tail: seq<string>, jt: string)
    requires w != [] && NoSpace(w, Python) && tail != []
    requires jt == JoinWith(tail, " ") && Words(jt) == tail
    ensures Words(JoinWith([w] + tail, " ")) == [w] + tail
  {
    assert ([w] + tail)[1..] == tail;
    JoinCons([w] + tail, " ");
    WordsOfWordThenSpace(w, jt);
  }

  lemma HeadTail<T>(s: seq<T>)
    requires s != []
    ensures [s[0]] + s[1..] == s
  {
  }

  /** Every element is a non-empty run of non-whitespace, as str.split() produces. */
  predicate IsWordList(ws: seq<string>)
  {
    forall i :: 0 <= i < |ws| ==> ws[i] != [] && NoSpace(ws[i], Python)
  }

  /** Joining space-free, non-empty words with one space and splitting again gives the words back. */
  lemma {:induction false} WordsOfJoin(ws: seq<string>)
    requires IsWordList(ws)
    ensures Words(JoinWith(ws, " ")) == ws
    decreases |ws|
  {
    if |ws| == 0 {
    } else if |ws| == 1 {
      WordsOfSingleWord(ws[0]);
    } else {
      WordsOfJoin(ws[1..]);
      WordsOfJoinStep(ws[0], ws[1..], JoinWith(ws[1..], " "));
      HeadTail(ws);
    }
  }

  /** str.split() yields non-empty runs of non-whitespace. */
  lemma {:induction false} WordsAreWords(s: string)
    ensures IsWordList(Words(s))
    decreases |s|
  {
    var t := TrimStart(s, Python);
    if t != [] {
      var w := TakeWord(t);
      assert w != [] && NoSpace(w, Python);
      var rest := Words(t[|w|..]);
      WordsAreWords(t[|w|..]);
      assert Words(s) == [w] + rest;
      forall i | 0 <= i < |[w] + rest| ensures ([w] + rest)[i] != [] && NoSpace(([w] + rest)[i], Python) {
        if i > 0 { assert ([w] + rest)[i] == rest[i - 1]; }
      }
    }
  }

  /** The words of s, joined with one space, neither start nor end with whitespace. */
  lemma {:induction false} JoinedWordsTrimmed(ws: seq<string>)
    requires IsWordList(ws)
    ensures Trimmed(JoinWith(ws, " "), Python)
    ensures ws != [] ==> JoinWith(ws, " ") != []
    decreases |ws|
  {
    if |ws| >= 2 {
      JoinedWordsTrimmed(ws[1..]);
      var t := JoinWith(ws[1..], " ");
      assert JoinWith(ws, " ") == ws[0] + " " + t;
    }
  }

  /** Only Python whitespace disappears when s is split into words. */
  lemma {:induction false} WordsEmptyIffBlank(s: string)
    ensures Words(s) == [] <==> AllSpace(s, Python)
  {
    var t := TrimStart(s, Python);
    if t == [] {
      assert s[..|s|] == s;
    } else {
      assert s[|s| - |t|] == t[0];
    }
  }

  /** ' '.join(s.split()) is a fixed point of itself and of strip(). */
  lemma CollapseIdempotent(s: string)
    ensures Collapse(Collapse(s)) == Collapse(s)
    ensures Strip(Collapse(s), Python) == Collapse(s)
    ensures Collapse(s) == [] <==> AllSpace(s, Python)
  {
    WordsAreWords(s);
    WordsOfJoin(Words(s));
    JoinedWordsTrimmed(Words(s));
    WordsEmptyIffBlank(s);
  }

  /** Joining with the separator character undoes splitting on it. */
  lemma {:induction false} JoinOfSplit(s: string, c: char)
    ensures JoinWith(SplitOn(s, c), [c]) == s
    decreases |s|
  {
    if s != [] {
      var rest := SplitOn(s[1..], c);
      JoinOfSplit(s[1..], c);
      if s[0] == c {
        assert SplitOn(s, c) == [""] + rest;
        assert ([""] + rest)[1..] == rest;
        assert s == [c] + s[1..];
      } else {
        var ps := SplitOn(s, c);
        assert ps == [[s[0]] + rest[0]] + rest[1..];
        if |rest| == 1 {
          assert s == [s[0]] + s[1..];
        } else {
          assert ps[1..] == rest[1..];
          assert JoinWith(rest, [c]) == rest[0] + [c] + JoinWith(rest[1..], [c]);
          assert s == [s[0]] + s[1..];
        }
      }
    }
  }

  /** Splitting the join of separator-free parts gives the parts back. */
  lemma {:induction false} SplitOfJoin(ps: seq<string>, c: char)
    requires |ps| >= 1
    requires forall i :: 0 <= i < |ps| ==> c !in ps[i]
    ensures SplitOn(JoinWith(ps, [c]), c) == ps
    decreases |ps|, |ps[0]|
  {
    if |ps| == 1 {
      SplitOfPlain(ps[0], c);
    } else if ps[0] == [] {
      var tail := JoinWith(ps[1..], [c]);
      assert JoinWith(ps, [c]) == [c] + tail;
      SplitOfJoin(ps[1..], c);
      assert ([c] + tail)[1..] == tail;
      assert [""] + ps[1..] == ps;
    } else {
      var p := ps[0];
      var ps' := [p[1..]] + ps[1..];
      var tail := JoinWith(ps[1..], [c]);
      assert JoinWith(ps, [c]) == p + [c] + tail;
      assert JoinWith(ps', [c]) == p[1..] + [c] + tail;
      assert (p + [c] + tail)[1..] == p[1..] + [c] + tail;
      assert c !in p[1..] by { assert forall k :: 0 <= k < |p[1..]| ==> p[1..][k] == p[k + 1]; }
      SplitOfJoin(ps', c);
      assert ps'[1..] == ps[1..];
      assert [p[0]] + p[1..] == p;
      assert [[p[0]] + p[1..]] + ps[1..] == ps;
    }
  }

  lemma {:induction false} SplitOfPlain(s: string, c: char)
    requires c !in s
    ensures SplitOn(s, c) == [s]
    decreases |s|
  {
    if s != [] {
      SplitOfPlain(s[1..], c);
      assert [s[0]] + s[1..] == s;
    }
  }

  /** s.split(c) has one more part than s has occurrences of c. */
  lemma {:induction false} SplitCount(s: string, c: char)
    ensures |SplitOn(s, c)| == Count(s, c) + 1
    decreases |s|
  {
    if s != [] { SplitCount(s[1..], c); }
  }

  lemma {:induction false} CountConcat(a: string, b: string, c: char)
    ensures Count(a + b, c) == Count(a, c) + Count(b, c)
    decreases |a|
  {
    if a == [] {
      assert a + b == b;
    } else {
      assert (a + b)[1..] == a[1..] + b;
      CountConcat(a[1..], b, c);
    }
  }

  lemma {:induction false} CountAbsent(s: string, c: char)
    requires c !in s
    ensures Count(s, c) == 0
    decreases |s|
  {
    if s != [] { CountAbsent(s[1..], c); }
  }

  lemma {:induction false} CountPresent(s: string, c: char)
    requires Count(s, c) == 0
    ensures c !in s
    decreases |s|
  {
    if s != [] { CountPresent(s[1..], c); }
  }
}
