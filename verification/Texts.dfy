/** Writing a text into a buffer at a position. */
module Texts {

  function Overwrite<T>(b: seq<T>, at: nat, s: seq<T>): (r: seq<T>)
    requires at + |s| <= |b|
    ensures |r| == |b|
  {
    seq(|b|, i requires 0 <= i < |b| => if at <= i < at + |s| then s[i - at] else b[i])
  }

  lemma OverwriteTwice<T>(b: seq<T>, at: nat, s: seq<T>, t: seq<T>)
    requires at + |s| + |t| <= |b|
    ensures Overwrite(Overwrite(b, at, s), at + |s|, t) == Overwrite(b, at, s + t)
  {
  }

  lemma OverwriteBefore<T>(b: seq<T>, at: nat, s: seq<T>, t: seq<T>)
    requires |t| <= at && at + |s| <= |b|
    ensures Overwrite(Overwrite(b, at, s), at - |t|, t) == Overwrite(b, at - |t|, t + s)
  {
  }

  /** The text without any occurrence of c. */
  function Strip(s: string, c: char): string {
    if s == "" then "" else Strip(s[..|s| - 1], c) + (if s[|s| - 1] == c then "" else [s[|s| - 1]])
  }

  lemma {:induction false} StripSum(s: string, t: string, c: char)
    ensures Strip(s + t, c) == Strip(s, c) + Strip(t, c)
  {
    if t == "" {
      assert s + t == s;
    } else {
      assert (s + t)[..|s + t| - 1] == s + t[..|t| - 1];
      StripSum(s, t[..|t| - 1], c);
    }
  }

  lemma {:induction false} StripNothing(s: string, c: char)
    requires c !in s
    ensures Strip(s, c) == s
  {
    if s != "" {
      StripNothing(s[..|s| - 1], c);
    }
  }
}
