/*
 * The text side of the workspace cleaner: the captured output of the
 * listing pipeline is stripped of its line breaks and cut into workspace
 * names on single spaces (cy-runner.js:35).
 */
module Listing {

  /** Number of occurrences of `c` in `s`. */
  function Count(s: string, c: char): (n: nat)
    ensures n <= |s|
  {
    if s == [] then 0 else (if s[0] == c then 1 else 0) + Count(s[1..], c)
  }

  /**
   * `text.replace(/\r?\n/g, '')`: every "\n" is removed together with a
   * "\r" right before it; the scan runs left to right, so in "\r\r\n" only
   * the second "\r" goes, and a "\r" that no "\n" follows stays.
   */
  function Normalize(s: string): (r: string)
    ensures '\n' !in r
    ensures |r| <= |s|
    decreases |s|
  {
    if s == [] then []
    else if s[0] == '\n' then Normalize(s[1..])
    else if s[0] == '\r' && |s| > 1 && s[1] == '\n' then Normalize(s[2..])
    else [s[0]] + Normalize(s[1..])
  }

  /**
   * `text.split(' ')` with JavaScript's rules: the empty text gives one
   * empty token, and k spaces give k + 1 tokens, empty ones included.
   */
  function Split(s: string): (r: seq<string>)
    ensures |r| == 1 + Count(s, ' ')
    ensures forall i :: 0 <= i < |r| ==> ' ' !in r[i]
    ensures forall i, k :: 0 <= i < |r| && 0 <= k < |r[i]| ==> r[i][k] in s
  {
    if s == [] then [[]]
    else
      var rest := Split(s[1..]);
      if s[0] == ' ' then [[]] + rest
      else [[s[0]] + rest[0]] + rest[1..]
  }

  /** `tokens.join(' ')`. */
  function Join(tokens: seq<string>): string
  {
    if tokens == [] then []
    else if |tokens| == 1 then tokens[0]
    else tokens[0] + [' '] + Join(tokens[1..])
  }

  /**
   * `wrk`: the workspace names the cleaner iterates over, from the
   * captured listing. There is always at least one, and none holds a
   * space or a line feed.
   */
  function Tokens(listing: string): (r: seq<string>)
    ensures |r| >= 1
    ensures forall i :: 0 <= i < |r| ==> ' ' !in r[i] && '\n' !in r[i]
  {
    Split(Normalize(listing))
  }

  /** Text without any "\n" passes through unchanged: in particular a lone "\r" is kept. */
  lemma {:induction false} NormalizeKeepsNewlineFree(s: string)
    requires '\n' !in s
    ensures Normalize(s) == s
  {
    if s != [] {
      assert '\n' !in s[1..] by { assert forall k :: 0 <= k < |s[1..]| ==> s[1..][k] == s[k + 1]; }
      NormalizeKeepsNewlineFree(s[1..]);
    }
  }

  /** In "\r\r\n" the regex takes only the second "\r" with the "\n". */
  lemma CrBeforeCrLf()
    ensures Normalize("\r\r\n") == "\r"
  {
    NormalizeConcat("\r", "\r\n");
    assert "\r" + "\r\n" == "\r\r\n";
  }

  /** Normalizing twice is normalizing once. */
  lemma NormalizeIdempotent(s: string)
    ensures Normalize(Normalize(s)) == Normalize(s)
  {
    NormalizeKeepsNewlineFree(Normalize(s));
  }

  /**
   * Normalization works piece by piece, as long as the cut does not
   * separate a "\r" from the "\n" that follows it.
   */
  lemma {:induction false} NormalizeConcat(a: string, b: string)
    requires a == [] || b == [] || a[|a| - 1] != '\r' || b[0] != '\n'
    ensures Normalize(a + b) == Normalize(a) + Normalize(b)
  {
    if a == [] {
      assert a + b == b;
    } else if b == [] {
      assert a + b == a;
    } else if |a| == 1 {
      var s := a + b;
      assert s[1..] == b;
      if a[0] == '\n' {
      } else {
        assert !(a[0] == '\r' && s[1] == '\n');
        assert Normalize(a) == [a[0]];
      }
    } else {
      var s := a + b;
      if a[0] == '\n' {
        assert s[1..] == a[1..] + b;
        NormalizeConcat(a[1..], b);
      } else if a[0] == '\r' && |a| > 1 && a[1] == '\n' {
        assert s[2..] == a[2..] + b;
        NormalizeConcat(a[2..], b);
      } else {
        assert s[1..] == a[1..] + b;
        NormalizeConcat(a[1..], b);
      }
    }
  }

  /**
   * The single line `xargs` prints loses its line ending, whether it is
   * "\n" or "\r\n".
   */
  lemma LineEndingDropped(line: string)
    requires '\n' !in line
    requires line == [] || line[|line| - 1] != '\r'
    ensures Normalize(line + "\n") == line
    ensures Normalize(line + "\r\n") == line
  {
    NormalizeConcat(line, "\n");
    NormalizeConcat(line, "\r\n");
    NormalizeKeepsNewlineFree(line);
  }

  /** Splitting text that starts with a space-free part keeps that part in the first token. */
  lemma {:induction false} SplitPrefix(t: string, u: string)
    requires ' ' !in t
    ensures Split(t + u) == [t + Split(u)[0]] + Split(u)[1..]
  {
    if t == [] {
      assert t + u == u && t + Split(u)[0] == Split(u)[0];
    } else {
      assert (t + u)[1..] == t[1..] + u;
      assert ' ' !in t[1..] by { assert forall k :: 0 <= k < |t[1..]| ==> t[1..][k] == t[k + 1]; }
      SplitPrefix(t[1..], u);
      assert [t[0]] + (t[1..] + Split(u)[0]) == t + Split(u)[0];
    }
  }

  /** Joining the tokens with single spaces gives back exactly the split text. */
  lemma {:induction false} JoinSplit(s: string)
    ensures Join(Split(s)) == s
  {
    if s != [] {
      var rest := Split(s[1..]);
      JoinSplit(s[1..]);
      if s[0] == ' ' {
        assert Split(s) == [[]] + rest;
        assert Join(Split(s)) == [' '] + Join(rest);
      } else {
        var r := Split(s);
        assert r == [[s[0]] + rest[0]] + rest[1..];
        if |rest| == 1 {
          assert Join(r) == [s[0]] + rest[0];
        } else {
          assert r[1..] == rest[1..];
          assert Join(rest) == rest[0] + [' '] + Join(rest[1..]);
          assert Join(r) == [s[0]] + rest[0] + [' '] + Join(rest[1..]);
        }
      }
    }
  }

  /** Splitting a join of space-free tokens gives the tokens back. */
  lemma {:induction false} SplitJoin(tokens: seq<string>)
    requires |tokens| >= 1
    requires forall i :: 0 <= i < |tokens| ==> ' ' !in tokens[i]
    ensures Split(Join(tokens)) == tokens
  {
    if |tokens| == 1 {
      SplitPrefix(tokens[0], []);
      assert tokens[0] + [] == tokens[0];
    } else {
      var t, rest := tokens[0], tokens[1..];
      SplitJoin(rest);
      assert Join(tokens) == t + ([' '] + Join(rest));
      SplitPrefix(t, [' '] + Join(rest));
      assert ([' '] + Join(rest))[1..] == Join(rest);
      assert Split([' '] + Join(rest)) == [[]] + rest;
      assert t + [] == t;
    }
  }

  /** The listing gives one token more than its normalized text has spaces, and they join back to it. */
  lemma TokensOfListing(listing: string)
    ensures |Tokens(listing)| == 1 + Count(Normalize(listing), ' ')
    ensures Join(Tokens(listing)) == Normalize(listing)
  {
    JoinSplit(Normalize(listing));
  }

  /** A listing with no space in it, empty or a single name, is one token. */
  lemma {:induction false} SingleToken(listing: string)
    requires ' ' !in listing
    ensures Tokens(listing) == [Normalize(listing)]
  {
    NormalizeDropsNoSpace(listing);
    SplitPrefix(Normalize(listing), []);
    assert Normalize(listing) + [] == Normalize(listing);
  }

  /** Normalization only removes characters, so it introduces no space. */
  lemma {:induction false} NormalizeDropsNoSpace(s: string)
    requires ' ' !in s
    ensures ' ' !in Normalize(s)
  {
    if s != [] {
      assert ' ' !in s[1..] by { assert forall k :: 0 <= k < |s[1..]| ==> s[1..][k] == s[k + 1]; }
      if |s| > 1 {
        assert ' ' !in s[2..] by { assert forall k :: 0 <= k < |s[2..]| ==> s[2..][k] == s[k + 2]; }
        NormalizeDropsNoSpace(s[2..]);
      }
      NormalizeDropsNoSpace(s[1..]);
    }
  }

  /** Joining with spaces introduces no character other than the space. */
  lemma {:induction false} JoinAvoids(tokens: seq<string>, c: char)
    requires c != ' '
    requires forall i :: 0 <= i < |tokens| ==> c !in tokens[i]
    ensures c !in Join(tokens)
  {
    if |tokens| > 1 {
      JoinAvoids(tokens[1..], c);
      var t, j := tokens[0], Join(tokens[1..]);
      assert forall k :: 0 <= k < |t + [' '] + j| ==>
        (t + [' '] + j)[k] == if k < |t| then t[k] else if k == |t| then ' ' else j[k - |t| - 1];
    }
  }

  /**
   * The line `xargs` prints for one or more names, each free of spaces
   * and line breaks, gives back exactly those names in listing order.
   */
  lemma ListedNames(names: seq<string>)
    requires |names| >= 1
    requires forall i :: 0 <= i < |names| ==> ' ' !in names[i] && '\n' !in names[i]
    requires Join(names) == [] || Join(names)[|Join(names)| - 1] != '\r'
    ensures Tokens(Join(names) + "\n") == names
  {
    JoinAvoids(names, '\n');
    LineEndingDropped(Join(names));
    SplitJoin(names);
  }
}
