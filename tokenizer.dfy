/**
 * The three string steps that turn a raw command line into the token list
 * the dispatcher walks (cmd.go, CmdProcess): trim white space at both ends,
 * rewrite every '=' to a space, and split on single spaces.
 */
module Tokenizer {

  /** White space as Go's unicode.IsSpace defines it (the set strings.TrimSpace strips). */
  predicate IsSpace(c: char) {
    || c == '\t' || c == '\n' || c == '\U{000B}' || c == '\U{000C}' || c == '\r' || c == ' '
    || c == '\U{0085}' || c == '\U{00A0}' || c == '\U{1680}'
    || ('\U{2000}' <= c <= '\U{200A}')
    || c == '\U{2028}' || c == '\U{2029}' || c == '\U{202F}' || c == '\U{205F}' || c == '\U{3000}'
  }

  /** s holds at least one character that is not white space. */
  predicate HasNonSpace(s: string) {
    exists i :: 0 <= i < |s| && !IsSpace(s[i])
  }

  /** Drops the leading white space (TrimLeftSuffix says what is left). */
  function TrimLeft(s: string): string
    decreases |s|
  {
    if s != [] && IsSpace(s[0]) then TrimLeft(s[1..]) else s
  }

  /** What TrimLeft leaves is a suffix of s that does not start with white space, and all it drops is white space. */
  lemma {:induction false} TrimLeftSuffix(s: string)
    ensures var r := TrimLeft(s);
      && |r| <= |s| && r == s[|s| - |r|..]
      && (forall i :: 0 <= i < |s| - |r| ==> IsSpace(s[i]))
      && (r != [] ==> !IsSpace(r[0]))
    decreases |s|
  {
    if s != [] && IsSpace(s[0]) {
      TrimLeftSuffix(s[1..]);
    }
  }

  /** Drops the trailing white space (TrimRightPrefix says what is left). */
  function TrimRight(s: string): string
    decreases |s|
  {
    if s != [] && IsSpace(s[|s| - 1]) then TrimRight(s[..|s| - 1]) else s
  }

  /** What TrimRight leaves is a prefix of s that does not end with white space, and all it drops is white space. */
  lemma {:induction false} TrimRightPrefix(s: string)
    ensures var r := TrimRight(s);
      && |r| <= |s| && r == s[..|r|]
      && (forall i :: |r| <= i < |s| ==> IsSpace(s[i]))
      && (r != [] ==> !IsSpace(r[|r| - 1]))
    decreases |s|
  {
    if s != [] && IsSpace(s[|s| - 1]) {
      TrimRightPrefix(s[..|s| - 1]);
    }
  }

  /**
   * strings.TrimSpace: white space is cut from both ends, so the result is no
   * longer than s and neither starts nor ends with white space;
   * TrimSpaceSlice shows that it is the part of s between its leading and its
   * trailing white space.
   */
  function TrimSpace(s: string): (r: string)
    ensures |r| <= |s|
    ensures r != [] ==> !IsSpace(r[0]) && !IsSpace(r[|r| - 1])
  {
    var l := TrimLeft(s);
    TrimLeftSuffix(s);
    TrimRightPrefix(l);
    var r := TrimRight(l);
    assert r != [] ==> r[0] == l[0];
    r
  }

  /**
   * TrimSpace keeps a contiguous slice of s, and everything it cuts off in
   * front of and behind that slice is white space.
   */
  lemma TrimSpaceSlice(s: string)
    ensures |TrimLeft(s)| <= |s|
    ensures var r, lead := TrimSpace(s), |s| - |TrimLeft(s)|;
      && lead + |r| <= |s|
      && r == s[lead..lead + |r|]
      && (forall i :: 0 <= i < lead ==> IsSpace(s[i]))
      && (forall i :: lead + |r| <= i < |s| ==> IsSpace(s[i]))
  {
    var l := TrimLeft(s);
    TrimLeftSuffix(s);
    TrimRightPrefix(l);
    var r := TrimRight(l);
    var lead := |s| - |l|;
    assert r == s[lead..lead + |r|] by {
      assert l == s[lead..];
      assert r == l[..|r|];
    }
    forall i | lead + |r| <= i < |s| ensures IsSpace(s[i]) {
      assert s[i] == l[i - lead];
    }
  }

  /**
   * strings.ReplaceAll(s, "=", " "): same length and no '=' left;
   * NormalizeAt shows that each character stays in place, '=' becoming a
   * space.
   */
  function Normalize(s: string): (r: string)
    ensures |r| == |s| && '=' !in r
  {
    if s == [] then []
    else [if s[0] == '=' then ' ' else s[0]] + Normalize(s[1..])
  }

  /** Normalize changes the character at i only when it is '=', and then into a space. */
  lemma {:induction false} NormalizeAt(s: string, i: nat)
    requires i < |s|
    ensures Normalize(s)[i] == if s[i] == '=' then ' ' else s[i]
    decreases i
  {
    if i > 0 {
      NormalizeAt(s[1..], i - 1);
    }
  }

  /** The tokens separated by single spaces: the inverse of Split. */
  function Join(tokens: seq<string>): string
    decreases |tokens|
  {
    if |tokens| == 0 then ""
    else if |tokens| == 1 then tokens[0]
    else tokens[0] + " " + Join(tokens[1..])
  }

  /**
   * strings.Split(s, " "): cut s at every single space. There is always a
   * token (so "" gives [""]) and no token contains a space; SplitCount shows
   * there is one token more than there are spaces (so two spaces in a row
   * give an empty token) and JoinSplit that the tokens joined with single
   * spaces give s back.
   */
  function Split(s: string): (r: seq<string>)
    ensures |r| >= 1
    ensures forall t :: t in r ==> ' ' !in t
    decreases |s|
  {
    if s == [] then [""]
    else
      var rest := Split(s[1..]);
      if s[0] == ' ' then [""] + rest
      else [[s[0]] + rest[0]] + rest[1..]
  }

  /** There is one token more than s has spaces. */
  lemma {:induction false} SplitCount(s: string)
    ensures |Split(s)| == multiset(s)[' '] + 1
    decreases |s|
  {
    if s != [] {
      SplitCount(s[1..]);
      assert s == [s[0]] + s[1..];
    }
  }

  /** Join undoes Split: nothing of s is lost or reordered by cutting it at spaces. */
  lemma {:induction false} JoinSplit(s: string)
    ensures Join(Split(s)) == s
    decreases |s|
  {
    if s != [] {
      var rest := Split(s[1..]);
      JoinSplit(s[1..]);
      assert s == [s[0]] + s[1..];
      if s[0] == ' ' {
        var r := [""] + rest;
        assert r[1..] == rest;
      } else {
        JoinPrepend(s[0], rest);
      }
    }
  }

  /** Putting a character in front of the first token puts it in front of the joined string. */
  lemma {:induction false} JoinPrepend(c: char, tokens: seq<string>)
    requires |tokens| >= 1
    ensures Join([[c] + tokens[0]] + tokens[1..]) == [c] + Join(tokens)
  {
    var r := [[c] + tokens[0]] + tokens[1..];
    assert r[1..] == tokens[1..];
    if |tokens| > 1 {
      calc {
        Join(r);
        r[0] + " " + Join(r[1..]);
        ([c] + tokens[0]) + " " + Join(tokens[1..]);
        [c] + (tokens[0] + " " + Join(tokens[1..]));
      }
    }
  }

  /** A character that does not occur in s occurs in none of its tokens. */
  lemma {:induction false} SplitKeepsOut(s: string, c: char)
    requires c !in s
    ensures forall t :: t in Split(s) ==> c !in t
    decreases |s|
  {
    if s != [] {
      SplitKeepsOut(s[1..], c);
    }
  }

  /**
   * The token list CmdProcess works on (cmd.go lines 59-62): never empty,
   * and no token holds '=' or a space; TokenizeJoin relates it to the line.
   */
  function Tokenize(rawCmd: string): (r: seq<string>)
    ensures |r| >= 1
    ensures forall t :: t in r ==> ' ' !in t && '=' !in t
  {
    var normalized := Normalize(TrimSpace(rawCmd));
    SplitKeepsOut(normalized, '=');
    Split(normalized)
  }

  /**
   * There is one token more than the normalized line has spaces, and the
   * tokens joined with single spaces are the trimmed line with every '='
   * made a space.
   */
  lemma TokenizeJoin(rawCmd: string)
    ensures var normalized := Normalize(TrimSpace(rawCmd));
      && |Tokenize(rawCmd)| == multiset(normalized)[' '] + 1
      && Join(Tokenize(rawCmd)) == normalized
  {
    JoinSplit(Normalize(TrimSpace(rawCmd)));
    SplitCount(Normalize(TrimSpace(rawCmd)));
  }

  /** Split undoes Join: a non-empty list of tokens without spaces comes back unchanged. */
  lemma {:induction false} SplitJoin(tokens: seq<string>)
    requires |tokens| >= 1
    requires forall t :: t in tokens ==> ' ' !in t
    ensures Split(Join(tokens)) == tokens
    decreases |tokens|
  {
    if |tokens| == 1 {
      SplitWord(tokens[0]);
    } else {
      SplitJoin(tokens[1..]);
      SplitAfterWord(tokens[0], Join(tokens[1..]));
      assert tokens == [tokens[0]] + tokens[1..];
    }
  }

  /** A string without spaces is a single token. */
  lemma {:induction false} SplitWord(w: string)
    requires ' ' !in w
    ensures Split(w) == [w]
    decreases |w|
  {
    if w != [] {
      SplitWord(w[1..]);
      assert w == [w[0]] + w[1..];
    }
  }

  /** A word followed by a space is split off as the first token. */
  lemma {:induction false} SplitAfterWord(w: string, s: string)
    requires ' ' !in w
    ensures Split(w + " " + s) == [w] + Split(s)
    decreases |w|
  {
    var t := w + " " + s;
    if w == [] {
      assert t[1..] == s by {
        assert t == [' '] + s;
      }
    } else {
      assert t[0] == w[0] && t[1..] == w[1..] + " " + s;
      var rest := Split(t[1..]);
      assert rest == [w[1..]] + Split(s) by {
        SplitAfterWord(w[1..], s);
      }
      assert Split(t) == [[w[0]] + rest[0]] + rest[1..];
      assert [w[0]] + w[1..] == w;
    }
  }

  /** Leading white space is only ever taken from a part that has something else in it. */
  lemma {:induction false} TrimLeftAppend(a: string, m: string)
    requires HasNonSpace(a)
    ensures TrimLeft(a + m) == TrimLeft(a) + m
    decreases |a|
  {
    assert (a + m)[0] == a[0];
    if IsSpace(a[0]) {
      var i :| 0 <= i < |a| && !IsSpace(a[i]);
      assert a[1..][i - 1] == a[i];
      assert (a + m)[1..] == a[1..] + m;
      assert TrimLeft(a + m) == TrimLeft(a[1..] + m);
      TrimLeftAppend(a[1..], m);
    }
  }

  /** A line of nothing but white space trims to nothing. */
  lemma {:induction false} TrimLeftBlank(s: string)
    requires !HasNonSpace(s)
    ensures TrimLeft(s) == []
    decreases |s|
  {
    if s != [] {
      assert forall i :: 0 <= i < |s| - 1 ==> s[1..][i] == s[i + 1];
      TrimLeftBlank(s[1..]);
    }
  }

  /** Trailing white space is only ever taken from a part that has something else in it. */
  lemma {:induction false} TrimRightPrepend(m: string, b: string)
    requires HasNonSpace(b)
    ensures TrimRight(m + b) == m + TrimRight(b)
    decreases |b|
  {
    var last := |b| - 1;
    if IsSpace(b[last]) {
      var i :| 0 <= i < |b| && !IsSpace(b[i]);
      assert b[..last][i] == b[i];
      TrimRightPrepend(m, b[..last]);
      assert (m + b)[..|m + b| - 1] == m + b[..last];
    }
  }

  /** Trimming leaves a separator between two non-blank parts where it is. */
  lemma TrimSpaceAround(a: string, c: char, b: string)
    requires HasNonSpace(a) && HasNonSpace(b)
    ensures TrimSpace(a + [c] + b) == TrimLeft(a) + [c] + TrimRight(b)
  {
    var l := TrimLeft(a);
    calc {
      TrimLeft(a + [c] + b);
      { assert a + [c] + b == a + ([c] + b);
        TrimLeftAppend(a, [c] + b); }
      l + ([c] + b);
      { assert l + ([c] + b) == (l + [c]) + b; }
      (l + [c]) + b;
    }
    TrimRightPrepend(l + [c], b);
  }

  /** Writing '=' or a space between two parts gives the same normalized string. */
  lemma NormalizeSeparator(x: string, y: string)
    ensures Normalize(x + "=" + y) == Normalize(x + " " + y)
  {
    var l, r := Normalize(x + "=" + y), Normalize(x + " " + y);
    forall i | 0 <= i < |l| ensures l[i] == r[i] {
      NormalizeAt(x + "=" + y, i);
      NormalizeAt(x + " " + y, i);
      if i != |x| {
        assert (x + "=" + y)[i] == (x + " " + y)[i];
      }
    }
  }

  /**
   * `--foo=bar` and `--foo bar` are the same command line: replacing a space
   * between two non-blank parts by '=' does not change the token list.
   */
  lemma TokenizeSeparator(a: string, b: string)
    requires HasNonSpace(a) && HasNonSpace(b)
    ensures Tokenize(a + "=" + b) == Tokenize(a + " " + b)
  {
    TrimSpaceAround(a, '=', b);
    TrimSpaceAround(a, ' ', b);
    NormalizeSeparator(TrimLeft(a), TrimRight(b));
  }
}
