/**
 * handlePriceInput of the marketplace script: the price and budget inputs
 * are rewritten on every keystroke. Anything but ASCII digits and '.' is
 * dropped, only the first '.' survives as the decimal point, and the integer
 * part gets a comma before every complete group of three digits.
 */
module PriceInput {
  import opened Text

  predicate IsDigit(c: char) { '0' <= c <= '9' }

  predicate AllDigits(s: string)
  {
    forall x :: x in s ==> IsDigit(x)
  }

  /** Every character is a digit or a decimal point. */
  predicate PriceChars(s: string)
  {
    forall x :: x in s ==> IsDigit(x) || x == '.'
  }

  /** Every character is a digit, a comma or a decimal point. */
  predicate FormattedChars(s: string)
  {
    forall x :: x in s ==> IsDigit(x) || x == ',' || x == '.'
  }

  /** s without any occurrence of c, the rest kept in order. */
  function Remove(s: string, c: char): (r: string)
    ensures c !in r
    ensures forall x :: x in r ==> x in s
    ensures c !in s ==> r == s
  {
    if s == [] then []
    else (if s[0] == c then [] else [s[0]]) + Remove(s[1..], c)
  }

  /** value.replace(/[^\d.]/g, ''): the ASCII digits and decimal points of s, in order. */
  function Sanitize(s: string): (r: string)
    ensures PriceChars(r)
    ensures PriceChars(s) ==> r == s
  {
    if s == [] then []
    else
      assert PriceChars(s) ==> PriceChars(s[1..]) by {
        assert forall x :: x in s[1..] ==> x in s;
      }
      (if IsDigit(s[0]) || s[0] == '.' then [s[0]] else []) + Sanitize(s[1..])
  }

  /** "One decimal point" read character by character: the first '.' stays and every later one is dropped. */
  function KeepFirstDot(v: string): (r: string)
    ensures Count(r, '.') <= 1
    ensures PriceChars(v) ==> PriceChars(r)
    ensures Count(v, '.') <= 1 ==> r == v
  {
    if v == [] then []
    else if v[0] == '.' then
      var rest := Remove(v[1..], '.');
      CountAbsent(rest, '.');
      assert ("." + rest)[1..] == rest;
      assert forall x :: x in v[1..] ==> x in v;
      assert Count(v, '.') <= 1 ==> '.' !in v[1..] by {
        if Count(v, '.') <= 1 { CountPresent(v[1..], '.'); }
      }
      "." + rest
    else
      var rest := KeepFirstDot(v[1..]);
      assert ([v[0]] + rest)[1..] == rest;
      assert forall x :: x in v[1..] ==> x in v;
      [v[0]] + rest
  }

  /**
   * The source's own rule: when splitting on '.' gives more than two parts,
   * the first part, a '.', and all later parts glued together. It keeps the
   * first '.' and drops the others.
   */
  function MergeDots(value: string): (r: string)
    ensures r == KeepFirstDot(value)
  {
    var parts := SplitOn(value, '.');
    SplitCount(value, '.');
    if |parts| > 2 then
      FirstDotStep(value);
      parts[0] + "." + JoinWith(parts[1..], "")
    else value
  }

  /**
   * integerPart.replace(/\B(?=(\d{3})+(?!\d))/g, ',') on a string of digits:
   * a comma goes before position i exactly when i is not the first position
   * and a positive multiple of three digits follows it. WithCommas(d, i) is
   * the output from position i on.
   */
  function WithCommas(d: string, i: nat): string
    decreases |d| - i
  {
    if i >= |d| then ""
    else (if 0 < i && (|d| - i) % 3 == 0 then "," else "") + [d[i]] + WithCommas(d, i + 1)
  }

  /** Thousands grouping by recursion: the grouped leading digits, a comma, and the last three digits. */
  function Group(d: string): (r: string)
    ensures forall x :: x in r ==> x in d || x == ','
    ensures d != [] ==> r != [] && r[0] == d[0]
    decreases |d|
  {
    if |d| <= 3 then d
    else
      var front := d[..|d| - 3];
      assert forall x :: x in front ==> x in d;
      assert forall x :: x in d[|d| - 3..] ==> x in d;
      Group(front) + "," + d[|d| - 3..]
  }

  /** The comma insertion of the source, equal to the recursive grouping. */
  function FormatInteger(d: string): (r: string)
    ensures r == Group(d)
  {
    GroupMatchesRegex(d);
    WithCommas(d, 0)
  }

  /**
   * handlePriceInput: sanitise, keep one decimal point, group the integer
   * part, keep the decimal part as it is. The output holds only digits,
   * commas and at most one '.'; no comma comes first and none after the '.';
   * and deleting the commas gives the sanitised input with its first '.'
   * kept and the others dropped.
   */
  function HandlePriceInput(input: string): (out: string)
    ensures WellFormatted(out, KeepFirstDot(Sanitize(input)))
  {
    var value := MergeDots(Sanitize(input));
    var parts := SplitOn(value, '.');
    ValueShape(value);
    var formattedInteger := FormatInteger(parts[0]);
    if |parts| >= 2 then
      GroupWithDecimalsWellFormatted(parts[0], parts[1]);
      formattedInteger + "." + parts[1]
    else
      GroupAloneWellFormatted(parts[0]);
      formattedInteger
  }

  // ---------------------------------------------------------------------------
  // Lemmas

  lemma {:induction false} CountCons(x: char, s: string, c: char)
    ensures Count([x] + s, c) == (if x == c then 1 else 0) + Count(s, c)
  {
    assert ([x] + s)[1..] == s;
  }

  lemma {:induction false} RemoveConcat(a: string, b: string, c: char)
    ensures Remove(a + b, c) == Remove(a, c) + Remove(b, c)
    decreases |a|
  {
    if a == [] {
      assert a + b == b;
    } else {
      assert (a + b)[1..] == a[1..] + b;
      RemoveConcat(a[1..], b, c);
    }
  }

  /** Gluing the pieces of s split at c back together without a separator removes every c. */
  lemma {:induction false} JoinSplitRemoves(w: string, c: char)
    ensures JoinWith(SplitOn(w, c), "") == Remove(w, c)
    decreases |w|
  {
    if w != [] {
      var rest := SplitOn(w[1..], c);
      JoinSplitRemoves(w[1..], c);
      var parts := SplitOn(w, c);
      if w[0] == c {
        assert parts == [""] + rest;
        assert parts[1..] == rest;
      } else {
        assert parts == [[w[0]] + rest[0]] + rest[1..];
        if |rest| >= 2 {
          assert parts[1..] == rest[1..];
          JoinCons(rest, "");
          JoinCons(parts, "");
        }
      }
    }
  }

  /** With a '.' present, the source's merge equals the character-by-character reading. */
  lemma {:induction false} FirstDotStep(v: string)
    requires Count(v, '.') >= 1
    ensures var parts := SplitOn(v, '.');
      parts[0] + "." + JoinWith(parts[1..], "") == KeepFirstDot(v)
    decreases |v|
  {
    var parts := SplitOn(v, '.');
    var rest := SplitOn(v[1..], '.');
    if v[0] == '.' {
      assert parts == [""] + rest;
      assert parts[1..] == rest;
      JoinSplitRemoves(v[1..], '.');
    } else {
      assert parts == [[v[0]] + rest[0]] + rest[1..];
      assert parts[1..] == rest[1..];
      FirstDotStep(v[1..]);
      assert ([v[0]] + rest[0]) + "." + JoinWith(rest[1..], "") == [v[0]] + (rest[0] + "." + JoinWith(rest[1..], ""));
    }
  }

  /** On three digits or fewer no comma is inserted. */
  lemma {:induction false} ShortHasNoCommas(d: string, i: nat)
    requires |d| <= 3 && i <= |d|
    ensures WithCommas(d, i) == d[i..]
    decreases |d| - i
  {
    if i < |d| {
      ShortHasNoCommas(d, i + 1);
      assert d[i..] == [d[i]] + d[i + 1..];
    }
  }

  /** Whether the regex puts a comma before position i of a run of n digits. */
  predicate CommaBefore(n: int, i: int)
  {
    0 < i && (n - i) % 3 == 0
  }

  lemma {:induction false} CommaBeforeShift(n: int, i: int)
    requires i <= n
    ensures CommaBefore(n + 3, i) == CommaBefore(n, i)
  {
    assert (n + 3 - i) % 3 == (n - i) % 3 by {
      assert n + 3 - i == (n - i) + 3;
    }
  }

  /** The last three digits of a longer run: a comma, then the three digits. */
  lemma {:induction false} WithCommasLastThree(d: string, i: nat)
    requires 0 < i && i + 3 == |d|
    ensures WithCommas(d, i) == "," + d[i..]
  {
    assert WithCommas(d, i + 3) == "";
    assert WithCommas(d, i + 2) == [d[i + 2]];
    assert WithCommas(d, i + 1) == [d[i + 1]] + [d[i + 2]];
    assert d[i..] == [d[i]] + [d[i + 1]] + [d[i + 2]];
  }

  /** The comma insertion only adds commas: deleting them gives the digits from position i on. */
  lemma {:induction false} WithCommasRemovesToDigits(d: string, i: nat)
    requires i <= |d|
    ensures Remove(WithCommas(d, i), ',') == Remove(d[i..], ',')
    decreases |d| - i
  {
    if i < |d| {
      var comma: string := if 0 < i && (|d| - i) % 3 == 0 then "," else "";
      var rest := WithCommas(d, i + 1);
      assert WithCommas(d, i) == comma + [d[i]] + rest;
      WithCommasRemovesToDigits(d, i + 1);
      RemoveConcat(comma + [d[i]], rest, ',');
      RemoveConcat(comma, [d[i]], ',');
      RemoveConcat([d[i]], d[i + 1..], ',');
      assert d[i..] == [d[i]] + d[i + 1..];
      assert Remove(comma, ',') == [];
    }
  }

  /** Appending three digits to a non-empty run adds one comma before them and changes nothing before. */
  lemma {:induction false} WithCommasAppend(a: string, b: string, i: nat)
    requires |b| == 3 && |a| >= 1 && i <= |a|
    ensures WithCommas(a + b, i) == WithCommas(a, i) + "," + b
    decreases |a| - i
  {
    var d := a + b;
    if i == |a| {
      WithCommasLastThree(d, i);
      assert d[i..] == b;
    } else {
      WithCommasAppend(a, b, i + 1);
      assert d[i] == a[i];
      CommaBeforeShift(|a|, i);
      assert WithCommas(d, i) == (if CommaBefore(|d|, i) then "," else "") + [d[i]] + WithCommas(d, i + 1);
      assert WithCommas(a, i) == (if CommaBefore(|a|, i) then "," else "") + [a[i]] + WithCommas(a, i + 1);
    }
  }

  lemma {:induction false} GroupMatchesRegex(d: string)
    ensures WithCommas(d, 0) == Group(d)
    decreases |d|
  {
    if |d| <= 3 {
      ShortHasNoCommas(d, 0);
    } else {
      var front, back := d[..|d| - 3], d[|d| - 3..];
      assert d == front + back;
      WithCommasAppend(front, back, 0);
      GroupMatchesRegex(front);
    }
  }

  /** Deleting the commas of the grouping gives the digits back. */
  lemma {:induction false} GroupRemovesToDigits(d: string)
    requires ',' !in d
    ensures Remove(Group(d), ',') == d
    decreases |d|
  {
    if |d| > 3 {
      var front, back := d[..|d| - 3], d[|d| - 3..];
      assert d == front + back;
      assert ',' !in front && ',' !in back;
      GroupRemovesToDigits(front);
      var g := Group(front);
      assert Group(d) == g + ("," + back);
      RemoveConcat(g, "," + back, ',');
      assert Remove("," + back, ',') == Remove(back, ',') by {
        assert ("," + back)[1..] == back;
      }
    }
  }

  /** A run of n >= 1 digits gets (n - 1) / 3 commas. */
  lemma {:induction false} GroupCommaCount(d: string)
    requires d != [] && ',' !in d
    ensures Count(Group(d), ',') == (|d| - 1) / 3
    decreases |d|
  {
    if |d| <= 3 {
      CountAbsent(d, ',');
    } else {
      var front, back := d[..|d| - 3], d[|d| - 3..];
      assert forall x :: x in front ==> x in d;
      assert forall x :: x in back ==> x in d;
      GroupCommaCount(front);
      CountConcat(Group(front) + ",", back, ',');
      CountConcat(Group(front), ",", ',');
      CountAbsent(back, ',');
    }
  }

  /** On formatted text, the sanitiser does nothing but delete the commas. */
  lemma {:induction false} SanitizeFormatted(x: string)
    requires FormattedChars(x)
    ensures Sanitize(x) == Remove(x, ',')
    decreases |x|
  {
    if x != [] {
      assert forall y :: y in x[1..] ==> y in x;
      SanitizeFormatted(x[1..]);
    }
  }

  /** After the merge there is at most one '.', so the split gives the integer part and at most one decimal part. */
  lemma {:induction false} ValueShape(v: string)
    requires PriceChars(v) && Count(v, '.') <= 1
    ensures var parts := SplitOn(v, '.');
      && 1 <= |parts| <= 2
      && AllDigits(parts[0])
      && (|parts| == 1 ==> v == parts[0])
      && (|parts| == 2 ==> v == parts[0] + "." + parts[1] && AllDigits(parts[1]))
  {
    var parts := SplitOn(v, '.');
    SplitCount(v, '.');
    JoinOfSplit(v, '.');
    if |parts| == 2 {
      JoinCons(parts, ".");
      assert parts[1..] == [parts[1]];
    }
  }

  /** The properties of the output, as a predicate of the output and the value it was formatted from. */
  predicate WellFormatted(out: string, value: string)
  {
    && FormattedChars(out)
    && Count(out, '.') <= 1
    && (out != [] ==> out[0] != ',')
    && (forall i, j :: 0 <= i < |out| && 0 <= j < |out| && out[i] == '.' && out[j] == ',' ==> j < i)
    && Remove(out, ',') == value
  }

  /** A grouped integer part alone is well formatted. */
  lemma {:induction false} GroupAloneWellFormatted(ip: string)
    requires AllDigits(ip)
    ensures WellFormatted(Group(ip), ip)
  {
    var g := Group(ip);
    assert ',' !in ip && '.' !in ip;
    GroupRemovesToDigits(ip);
    assert '.' !in g;
    CountAbsent(g, '.');
  }

  /** A grouped integer part, a '.', and a decimal part of digits are well formatted. */
  lemma {:induction false} GroupWithDecimalsWellFormatted(ip: string, dp: string)
    requires AllDigits(ip) && AllDigits(dp)
    ensures WellFormatted(Group(ip) + "." + dp, ip + "." + dp)
  {
    var g := Group(ip);
    var tail := "." + dp;
    var out := g + tail;
    assert Group(ip) + "." + dp == out;
    assert ip + "." + dp == ip + tail;
    GroupAloneWellFormatted(ip);
    assert ',' !in dp && '.' !in dp;
    assert FormattedChars(out) by {
      assert forall x :: x in tail ==> x == '.' || x in dp;
    }
    assert Count(out, '.') == 1 by {
      assert '.' !in g;
      CountAbsent(g, '.');
      CountAbsent(dp, '.');
      CountConcat(g, tail, '.');
      CountCons('.', dp, '.');
    }
    assert Remove(out, ',') == ip + tail by {
      RemoveConcat(g, tail, ',');
      assert ',' !in tail;
    }
    assert '.' !in g;
    CommasBeforeDot(g, dp);
  }

  /** In a text without '.' followed by '.' and a text without ',', every comma comes before the '.'. */
  lemma {:induction false} CommasBeforeDot(g: string, dp: string)
    requires '.' !in g && ',' !in dp
    ensures var out := g + "." + dp;
      forall i, j :: 0 <= i < |out| && 0 <= j < |out| && out[i] == '.' && out[j] == ',' ==> j < i
  {
    var out := g + "." + dp;
    assert forall k :: 0 <= k < |g| ==> out[k] == g[k];
    assert forall k :: |g| < k < |out| ==> out[k] == dp[k - |g| - 1];
  }

  /** Formatting what is already formatted changes nothing. */
  lemma {:induction false} PriceInputIdempotent(input: string)
    ensures HandlePriceInput(HandlePriceInput(input)) == HandlePriceInput(input)
  {
    var out := HandlePriceInput(input);
    var value := MergeDots(Sanitize(input));
    SanitizeFormatted(out);
    assert Sanitize(out) == value;
    assert MergeDots(Sanitize(out)) == value;
  }

  /** Each complete group of three digits at the end of the integer part gets its comma. */
  lemma {:induction false} PriceGroupsThousands(front: string, back: string)
    requires AllDigits(front) && AllDigits(back) && front != [] && |back| == 3
    ensures HandlePriceInput(front + back) == HandlePriceInput(front) + "," + back
  {
    var d := front + back;
    assert PriceChars(d) && PriceChars(front);
    CountAbsent(d, '.');
    CountAbsent(front, '.');
    SplitOfPlain(d, '.');
    SplitOfPlain(front, '.');
    assert d[..|d| - 3] == front && d[|d| - 3..] == back;
  }
}
