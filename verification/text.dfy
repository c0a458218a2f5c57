/**
 * The java.lang.String operations the statement builders rely on:
 * trim, replace of one character by another, String.join, and a
 * character count used to reason about `?` placeholders.
 */
module JavaText {

  /** String.trim removes every leading and trailing char whose code is at most U+0020. */
  predicate IsBlank(c: char) {
    c <= ' '
  }

  /** The leading-blank half of String.trim. */
  function TrimStart(s: string): (r: string)
    ensures |r| <= |s| && r == s[|s| - |r|..]
    ensures forall k :: 0 <= k < |s| - |r| ==> IsBlank(s[k])
    ensures r != [] ==> !IsBlank(r[0])
  {
    if s != [] && IsBlank(s[0]) then TrimStart(s[1..]) else s
  }

  /** The trailing-blank half of String.trim. */
  function TrimEnd(s: string): (r: string)
    ensures |r| <= |s| && r == s[..|r|]
    ensures forall k :: |r| <= k < |s| ==> IsBlank(s[k])
    ensures r != [] ==> !IsBlank(r[|r| - 1])
  {
    if s != [] && IsBlank(s[|s| - 1]) then TrimEnd(s[..|s| - 1]) else s
  }

  /** String.trim: the text with blanks stripped from both ends. */
  function Trim(s: string): (r: string)
    ensures r == [] <==> forall k :: 0 <= k < |s| ==> IsBlank(s[k])
    ensures r != [] ==> !IsBlank(r[0]) && !IsBlank(r[|r| - 1])
  {
    var head := TrimStart(s);
    TrimEnd(head)
  }

  /** The trimmed text is the part of `s` between its leading and its trailing blanks. */
  lemma TrimSlice(s: string)
    ensures exists a {:trigger s[a..]} ::
      (0 <= a <= |s| - |Trim(s)| && Trim(s) == s[a..][..|Trim(s)|]
       && (forall k :: 0 <= k < a ==> IsBlank(s[k]))
       && (forall k :: a + |Trim(s)| <= k < |s| ==> IsBlank(s[k])))
  {
    var a := |s| - |TrimStart(s)|;
    assert Trim(s) == s[a..][..|Trim(s)|];
  }

  /** String.replace(CharSequence, CharSequence) with one-character arguments. */
  function ReplaceChar(s: string, from: char, to: char): (r: string)
    ensures |r| == |s|
    ensures forall k :: 0 <= k < |s| ==> r[k] == if s[k] == from then to else s[k]
  {
    if s == [] then []
    else [if s[0] == from then to else s[0]] + ReplaceChar(s[1..], from, to)
  }

  /** After a replacement by a different char, the replaced char is gone. */
  lemma ReplaceCharRemoves(s: string, from: char, to: char)
    requires from != to
    ensures from !in ReplaceChar(s, from, to)
  {
    var r := ReplaceChar(s, from, to);
    forall k | 0 <= k < |r| ensures r[k] != from {
    }
  }

  /** String.join(sep, parts): the parts with `sep` between neighbours, none at either end. */
  function Join(sep: string, parts: seq<string>): string
  {
    if |parts| == 0 then ""
    else if |parts| == 1 then parts[0]
    else Join(sep, parts[..|parts| - 1]) + sep + parts[|parts| - 1]
  }

  /** The joined text begins with the first part and ends with the last: no separator at either end. */
  lemma {:induction false} JoinEnds(sep: string, parts: seq<string>)
    ensures |parts| == 0 ==> Join(sep, parts) == ""
    ensures |parts| > 0 ==> var r := Join(sep, parts);
      |parts[0]| <= |r| && r[..|parts[0]|] == parts[0]
    ensures |parts| > 0 ==> var r := Join(sep, parts); var last := parts[|parts| - 1];
      |last| <= |r| && r[|r| - |last|..] == last
  {
    if |parts| > 1 {
      var init := parts[..|parts| - 1];
      var last := parts[|parts| - 1];
      JoinEnds(sep, init);
      var joined := Join(sep, init);
      assert Join(sep, parts) == joined + sep + last;
      assert (joined + sep + last)[..|parts[0]|] == joined[..|parts[0]|];
    }
  }

  lemma JoinThree(sep: string, a: string, b: string, c: string)
    ensures Join(sep, [a, b, c]) == a + sep + b + sep + c
  {
    assert [a, b, c][..2] == [a, b] && [a, b][..1] == [a];
    assert Join(sep, [a, b, c]) == Join(sep, [a, b]) + sep + c;
    assert Join(sep, [a, b]) == Join(sep, [a]) + sep + b;
  }

  /** Number of occurrences of `ch` in `s`. */
  function CountChar(ch: char, s: string): nat
  {
    if s == [] then 0 else CountChar(ch, s[..|s| - 1]) + (if s[|s| - 1] == ch then 1 else 0)
  }

  lemma {:induction false} CountCharAppend(ch: char, a: string, b: string)
    ensures CountChar(ch, a + b) == CountChar(ch, a) + CountChar(ch, b)
  {
    if b == [] {
      assert a + b == a;
    } else {
      assert (a + b)[..|a + b| - 1] == a + b[..|b| - 1];
      CountCharAppend(ch, a, b[..|b| - 1]);
    }
  }

  lemma {:induction false} CountCharAbsent(ch: char, s: string)
    ensures CountChar(ch, s) == 0 <==> ch !in s
  {
    if s != [] {
      CountCharAbsent(ch, s[..|s| - 1]);
      assert s == s[..|s| - 1] + [s[|s| - 1]];
    }
  }

  /**
   * When no separator holds `ch` and every part holds it exactly `k` times,
   * the joined text holds it `k` times per part.
   */
  lemma {:induction false} JoinCount(ch: char, sep: string, parts: seq<string>, k: nat)
    requires ch !in sep
    requires forall i :: 0 <= i < |parts| ==> CountChar(ch, parts[i]) == k
    ensures CountChar(ch, Join(sep, parts)) == k * |parts|
  {
    if |parts| > 1 {
      var init := parts[..|parts| - 1];
      var last := parts[|parts| - 1];
      var joined := Join(sep, init);
      assert Join(sep, parts) == joined + sep + last;
      forall i | 0 <= i < |init| ensures CountChar(ch, init[i]) == k {
        assert init[i] == parts[i];
      }
      JoinCount(ch, sep, init, k);
      CountCharAbsent(ch, sep);
      CountCharAppend(ch, joined, sep);
      CountCharAppend(ch, joined + sep, last);
      assert k * (|parts| - 1) + k == k * |parts|;
    }
  }
}
