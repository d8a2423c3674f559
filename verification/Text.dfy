/** The few operations of Go's strings package that the line-based files need. A text
    is a sequence of Unicode scalar values. */
module Text {

  const NL: char := '\n'

  /** unicode.IsSpace. */
  predicate IsSpace(c: char) {
    '\t' <= c <= '\r' || c == ' ' || c == '\U{85}' || c == '\U{A0}' || c == '\U{1680}'
    || '\U{2000}' <= c <= '\U{200A}' || c == '\U{2028}' || c == '\U{2029}' || c == '\U{202F}'
    || c == '\U{205F}' || c == '\U{3000}'
  }

  /** The white space of Unicode by code point. */
  lemma WhiteSpaceExactly(c: char)
    ensures var n := c as int;
            IsSpace(c) <==> 9 <= n < 14 || n == 32 || n == 133 || n == 160 || n == 5760 || 8192 <= n < 8203
                            || n == 8232 || n == 8233 || n == 8239 || n == 8287 || n == 12288
  {
  }

  predicate Blank(s: string) { forall i :: 0 <= i < |s| ==> IsSpace(s[i]) }

  function TrimLeftSpace(s: string): string {
    if s != [] && IsSpace(s[0]) then TrimLeftSpace(s[1..]) else s
  }

  function TrimRightSpace(s: string): string {
    if s != [] && IsSpace(s[|s| - 1]) then TrimRightSpace(s[..|s| - 1]) else s
  }

  lemma BlankCons(c: char, s: string)
    requires IsSpace(c) && Blank(s)
    ensures Blank([c] + s)
  {
    hide IsSpace;
  }

  lemma {:induction false} TrimLeftFacts(s: string)
    ensures var r := TrimLeftSpace(s);
            (r == [] || !IsSpace(r[0])) && |r| <= |s| && r == s[|s| - |r|..] && Blank(s[..|s| - |r|])
  {
    hide IsSpace;
    if s != [] && IsSpace(s[0]) {
      TrimLeftFacts(s[1..]);
      var n := |s| - |TrimLeftSpace(s)|;
      BlankCons(s[0], s[1..][..n - 1]);
      assert s[..n] == [s[0]] + s[1..][..n - 1];
      assert s[n..] == s[1..][n - 1..];
    } else {
      assert s[0..] == s && s[..0] == [];
    }
  }

  lemma {:induction false} TrimRightFacts(s: string)
    ensures var r := TrimRightSpace(s);
            (r == [] || !IsSpace(r[|r| - 1])) && r <= s && Blank(s[|r|..])
  {
    hide IsSpace;
    if s != [] && IsSpace(s[|s| - 1]) {
      TrimRightFacts(s[..|s| - 1]);
      var r := TrimRightSpace(s);
      assert s[|r|..] == s[..|s| - 1][|r|..] + [s[|s| - 1]];
    }
  }

  /** strings.TrimSpace. */
  function TrimSpace(s: string): string {
    TrimRightSpace(TrimLeftSpace(s))
  }

  lemma TrimSpaceIsTrimmed(s: string)
    ensures Trimmed(TrimSpace(s))
  {
    hide IsSpace;
    TrimLeftFacts(s);
    TrimRightFacts(TrimLeftSpace(s));
  }

  /** Trimming introduces no character. */
  lemma TrimSpaceLacks(s: string, c: char)
    requires c !in s
    ensures c !in TrimSpace(s)
  {
    hide IsSpace;
    TrimLeftFacts(s);
    TrimRightFacts(TrimLeftSpace(s));
    var l := TrimLeftSpace(s);
    assert c !in l;
  }

  predicate Trimmed(s: string) { s == [] || (!IsSpace(s[0]) && !IsSpace(s[|s| - 1])) }

  lemma TrimSpaceFixes(s: string)
    requires Trimmed(s)
    ensures TrimSpace(s) == s
  {
  }

  lemma TrimSpaceBlank(s: string)
    ensures TrimSpace(s) == [] <==> Blank(s)
  {
    hide IsSpace;
    TrimLeftFacts(s);
    TrimRightFacts(TrimLeftSpace(s));
    var l := TrimLeftSpace(s);
    assert s[..|s|] == s;
    assert Blank(s) ==> l == [];
  }

  /** White space around a text does not change what is trimmed. */
  lemma {:induction false} TrimPrefix(pre: string, s: string)
    requires Blank(pre)
    ensures TrimSpace(pre + s) == TrimSpace(s)
  {
    hide IsSpace;
    if pre != [] {
      assert (pre + s)[1..] == pre[1..] + s;
      TrimPrefix(pre[1..], s);
    } else {
      assert pre + s == s;
    }
  }

  lemma {:induction false} TrimSuffix(s: string, post: string)
    requires Blank(post)
    ensures TrimSpace(s + post) == TrimSpace(s)
  {
    hide IsSpace;
    hide TrimSpace;
    if post != [] {
      var post' := post[..|post| - 1];
      TrimOneRight(s + post', post[|post| - 1]);
      assert s + post' + [post[|post| - 1]] == s + post;
      TrimSuffix(s, post');
    } else {
      assert s + post == s;
    }
  }

  lemma TrimOneRight(s: string, c: char)
    requires IsSpace(c)
    ensures TrimSpace(s + [c]) == TrimSpace(s)
  {
    if s != [] && IsSpace(s[0]) {
      assert (s + [c])[1..] == s[1..] + [c];
      TrimOneRight(s[1..], c);
    } else if s == [] {
      assert (s + [c])[1..] == [];
    } else {
      assert (s + [c])[..|s|] == s;
    }
  }

  /** strings.TrimRight(s, "\n"). */
  function TrimRightNewlines(s: string): (r: string) {
    if s != [] && s[|s| - 1] == NL then TrimRightNewlines(s[..|s| - 1]) else s
  }

  predicate OneLine(s: string) { NL !in s }

  predicate Lines(ls: seq<string>) { forall i :: 0 <= i < |ls| ==> OneLine(ls[i]) }

  /** Puts a character in front of a text that is already split. */
  function Push(c: char, ls: seq<string>): (r: seq<string>)
    requires |ls| > 0
    ensures |r| > 0 && (Lines(ls) ==> Lines(r))
  {
    if c == NL then [""] + ls else [[c] + ls[0]] + ls[1..]
  }

  /** strings.Split(s, "\n"). */
  function Split(s: string): (ls: seq<string>)
    ensures |ls| > 0 && Lines(ls)
  {
    if s == [] then [""] else Push(s[0], Split(s[1..]))
  }

  /** strings.Join(ls, "\n"). */
  function Join(ls: seq<string>): string {
    if |ls| == 0 then ""
    else if |ls| == 1 then ls[0]
    else ls[0] + [NL] + Join(ls[1..])
  }

  lemma SplitLine(s: string)
    requires OneLine(s)
    ensures Split(s) == [s]
  {
    if s != [] {
      SplitLine(s[1..]);
      assert [s[0]] + s[1..] == s;
    }
  }

  lemma PushAppends(c: char, la: seq<string>, lb: seq<string>)
    requires |la| > 0
    ensures Push(c, la + lb) == Push(c, la) + lb
  {
  }

  /** Splitting distributes over a newline. */
  lemma {:induction false} SplitAt(a: string, b: string)
    ensures Split(a + [NL] + b) == Split(a) + Split(b)
  {
    var t := a + [NL] + b;
    if a == [] {
      assert t[1..] == b;
      assert Push(NL, Split(b)) == [""] + Split(b);
    } else {
      hide Push;
      assert t[1..] == a[1..] + [NL] + b;
      SplitAt(a[1..], b);
      PushAppends(a[0], Split(a[1..]), Split(b));
    }
  }

  /** Split undoes Join on any list of lines. */
  lemma {:induction false} SplitJoin(ls: seq<string>)
    requires |ls| > 0 && Lines(ls)
    ensures Split(Join(ls)) == ls
  {
    SplitLine(ls[0]);
    if |ls| > 1 {
      SplitAt(ls[0], Join(ls[1..]));
      SplitJoin(ls[1..]);
      assert [ls[0]] + ls[1..] == ls;
    }
  }

  /** Join undoes Split on any text. */
  lemma {:induction false} JoinSplit(s: string)
    ensures Join(Split(s)) == s
  {
    if s != [] {
      JoinSplit(s[1..]);
      var ls := Split(s[1..]);
      if s[0] == NL {
        assert Split(s)[1..] == ls;
      } else {
        assert Split(s)[0] == [s[0]] + ls[0];
        assert Split(s)[1..] == ls[1..];
        if |ls| > 1 {
          assert Join(Split(s)) == [s[0]] + ls[0] + [NL] + Join(ls[1..]);
        }
      }
    }
  }

  /** Trimming trailing newlines only drops empty lines from the end. */
  lemma {:induction false} SplitTrimmed(s: string) returns (n: nat)
    ensures Split(s) == Split(TrimRightNewlines(s)) + seq(n, _ => "")
  {
    if s != [] && s[|s| - 1] == NL {
      var k := SplitTrimmed(s[..|s| - 1]);
      assert s == s[..|s| - 1] + [NL] + [];
      SplitAt(s[..|s| - 1], []);
      n := k + 1;
      assert seq(k, _ => "") + [""] == seq(n, _ => "");
      assert Split(s) == Split(TrimRightNewlines(s)) + (seq(k, _ => "") + [""]);
    } else {
      n := 0;
    }
  }

  /** strings.IndexByte, with the length for "not found". */
  function IndexOf(s: string, c: char): (i: nat)
    ensures i <= |s| && c !in s[..i] && (i < |s| ==> s[i] == c)
  {
    if s == [] || s[0] == c then 0
    else
      var i := 1 + IndexOf(s[1..], c);
      assert s[..i] == [s[0]] + s[1..][..i - 1];
      i
  }

  lemma {:induction false} IndexOfAt(a: string, c: char, b: string)
    requires c !in a
    ensures IndexOf(a + [c] + b, c) == |a|
  {
    if a != [] {
      assert (a + [c] + b)[1..] == a[1..] + [c] + b;
      IndexOfAt(a[1..], c, b);
    }
  }

  lemma {:induction false} IndexOfNone(s: string, c: char)
    requires c !in s
    ensures IndexOf(s, c) == |s|
  {
    if s != [] { IndexOfNone(s[1..], c); }
  }

  predicate HasPrefix(s: string, p: string) { p <= s }

  predicate HasSuffix(s: string, p: string) { |p| <= |s| && s[|s| - |p|..] == p }
}
