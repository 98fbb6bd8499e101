/**
  The few java.lang.String operations the core relies on: `trim`,
  `toLowerCase(Locale.ROOT)` (ASCII letters only), `startsWith` and `contains`.
 */
module Text {

  /** `String.trim` removes every leading and trailing char whose code is at most U+0020. */
  predicate IsTrimmable(c: char) {
    c <= ' '
  }

  predicate AllTrimmable(s: string) {
    forall i :: 0 <= i < |s| ==> IsTrimmable(s[i])
  }

  /** The chars `trim` drops at the front: the result is the suffix that starts at the first non-blank char. */
  function TrimStart(s: string): (r: string)
    ensures |r| <= |s| && r == s[|s| - |r|..]
    ensures r == [] || !IsTrimmable(r[0])
    ensures AllTrimmable(s[..|s| - |r|])
    decreases |s|
  {
    if s != [] && IsTrimmable(s[0]) then
      var r := TrimStart(s[1..]);
      assert s[..|s| - |r|] == [s[0]] + s[1..][..|s| - 1 - |r|];
      r
    else s
  }

  /** The chars `trim` drops at the back: the result is the prefix that ends at the last non-blank char. */
  function TrimEnd(s: string): (r: string)
    ensures |r| <= |s| && r == s[..|r|]
    ensures r == [] || !IsTrimmable(r[|r| - 1])
    ensures AllTrimmable(s[|r|..])
    decreases |s|
  {
    if s != [] && IsTrimmable(s[|s| - 1]) then
      var r := TrimEnd(s[..|s| - 1]);
      assert s[|r|..] == s[..|s| - 1][|r|..] + [s[|s| - 1]];
      r
    else s
  }

  /** Neither end of `s` is a char `trim` would drop. */
  predicate IsTrimmed(s: string) {
    s == [] || (!IsTrimmable(s[0]) && !IsTrimmable(s[|s| - 1]))
  }

  /** `String.trim`. */
  function Trim(s: string): (r: string)
    ensures IsTrimmed(r)
    ensures r == [] <==> AllTrimmable(s)
  {
    var t := TrimStart(s);
    var r := TrimEnd(t);
    assert r == [] ==> AllTrimmable(s) by {
      if r == [] {
        assert s == s[..|s| - |t|] + t;
        assert t == t[0..];
      }
    }
    r
  }

  /** `Character.toLowerCase` restricted to ASCII: only 'A'..'Z' change. */
  function LowerChar(c: char): char {
    if 'A' <= c <= 'Z' then (c as int + 32) as char else c
  }

  /** No ASCII capital letter in `s`. */
  predicate IsLowerCase(s: string) {
    forall i :: 0 <= i < |s| ==> !('A' <= s[i] <= 'Z')
  }

  /** `toLowerCase(Locale.ROOT)` restricted to ASCII letters. */
  function ToLowerAscii(s: string): (r: string)
    ensures |r| == |s| && IsLowerCase(r)
  {
    seq(|s|, i requires 0 <= i < |s| => LowerChar(s[i]))
  }

  /** `String.startsWith`, by comparing one char at a time. */
  function StartsWith(s: string, prefix: string): (r: bool)
    ensures r <==> |prefix| <= |s| && s[..|prefix|] == prefix
  {
    if prefix == [] then true
    else if s == [] then false
    else
      assert |prefix| <= |s| ==> s[..|prefix|] == [s[0]] + s[1..][..|prefix| - 1];
      assert prefix == [prefix[0]] + prefix[1..];
      s[0] == prefix[0] && StartsWith(s[1..], prefix[1..])
  }

  /** `needle` occurs in `s` starting at index `i`. */
  predicate OccursAt(s: string, needle: string, i: nat) {
    i + |needle| <= |s| && s[i..i + |needle|] == needle
  }

  /** `needle` occurs in `s` at some index. */
  ghost predicate Occurs(s: string, needle: string) {
    exists i: nat :: OccursAt(s, needle, i)
  }

  /** `String.contains`: try every start position from the left. */
  function Contains(s: string, needle: string): (r: bool)
    ensures needle == [] ==> r
    ensures r ==> |needle| <= |s|
    decreases |s|
  {
    StartsWith(s, needle) || (s != [] && Contains(s[1..], needle))
  }

  lemma {:induction false} ContainsIffOccurs(s: string, needle: string)
    ensures Contains(s, needle) <==> Occurs(s, needle)
    decreases |s|
  {
    if StartsWith(s, needle) {
      assert OccursAt(s, needle, 0);
    } else if s == [] {
      assert forall i: nat :: !OccursAt(s, needle, i);
    } else {
      ContainsIffOccurs(s[1..], needle);
      if Contains(s[1..], needle) {
        var i: nat :| OccursAt(s[1..], needle, i);
        assert s[i + 1..i + 1 + |needle|] == s[1..][i..i + |needle|];
        assert OccursAt(s, needle, i + 1);
      }
      if Occurs(s, needle) {
        var i: nat :| OccursAt(s, needle, i);
        assert i != 0;
        assert s[1..][i - 1..i - 1 + |needle|] == s[i..i + |needle|];
        assert OccursAt(s[1..], needle, i - 1);
      }
    }
  }

  /** What `trim` keeps is one contiguous run of its argument, from `k` on, with only blanks around it. */
  lemma TrimIsSlice(s: string) returns (k: nat)
    ensures k + |Trim(s)| <= |s|
    ensures forall j :: 0 <= j < |Trim(s)| ==> Trim(s)[j] == s[k + j]
    ensures forall j :: 0 <= j < k ==> IsTrimmable(s[j])
    ensures forall j :: k + |Trim(s)| <= j < |s| ==> IsTrimmable(s[j])
  {
    k := BlankFramedRun(s, TrimStart(s), Trim(s));
  }

  /**
    A suffix `t` of `s` after blanks only, and a prefix `r` of `t` before blanks
    only: `r` is a run of `s` from `k` on, framed by blanks.
   */
  lemma BlankFramedRun(s: string, t: string, r: string) returns (k: nat)
    requires |t| <= |s| && t == s[|s| - |t|..] && AllTrimmable(s[..|s| - |t|])
    requires |r| <= |t| && r == t[..|r|] && AllTrimmable(t[|r|..])
    ensures k + |r| <= |s|
    ensures forall j :: 0 <= j < |r| ==> r[j] == s[k + j]
    ensures forall j :: 0 <= j < k ==> IsTrimmable(s[j])
    ensures forall j :: k + |r| <= j < |s| ==> IsTrimmable(s[j])
  {
    k := |s| - |t|;
    forall j | 0 <= j < |r|
      ensures r[j] == s[k + j]
    {
      assert r[j] == t[j] == s[k..][j];
    }
    forall j | 0 <= j < k
      ensures IsTrimmable(s[j])
    {
      assert s[..k][j] == s[j];
    }
    forall j | k + |r| <= j < |s|
      ensures IsTrimmable(s[j])
    {
      assert t[|r|..][j - k - |r|] == t[j - k] == s[k..][j - k];
    }
  }

  /** `needle` cannot occur where no char matching its first one is followed by one matching its second. */
  lemma NoOccurrenceWithoutPair(s: string, needle: string)
    requires |needle| >= 2
    requires forall i :: 0 <= i < |s| - 1 ==> !(s[i] == needle[0] && s[i + 1] == needle[1])
    ensures !Occurs(s, needle)
  {
    forall i: nat
      ensures !OccursAt(s, needle, i)
    {
      if i + |needle| <= |s| {
        var window := s[i..i + |needle|];
        if s[i] == needle[0] {
          assert window[1] == s[i + 1] != needle[1];
        } else {
          assert window[0] == s[i] != needle[0];
        }
      }
    }
  }

  lemma {:induction false} TrimStartLower(s: string)
    ensures TrimStart(ToLowerAscii(s)) == ToLowerAscii(TrimStart(s))
    decreases |s|
  {
    if s != [] {
      var lowered := ToLowerAscii(s);
      assert lowered[0] == LowerChar(s[0]);
      assert lowered[1..] == ToLowerAscii(s[1..]);
      if IsTrimmable(s[0]) {
        TrimStartLower(s[1..]);
      }
    }
  }

  lemma {:induction false} TrimEndLower(s: string)
    ensures TrimEnd(ToLowerAscii(s)) == ToLowerAscii(TrimEnd(s))
    decreases |s|
  {
    if s != [] {
      var lowered := ToLowerAscii(s);
      assert lowered[|s| - 1] == LowerChar(s[|s| - 1]);
      assert lowered[..|s| - 1] == ToLowerAscii(s[..|s| - 1]);
      if IsTrimmable(s[|s| - 1]) {
        TrimEndLower(s[..|s| - 1]);
      }
    }
  }

  /** Lower-casing never turns a blank into a non-blank or back, so it commutes with `trim`. */
  lemma LowerTrimCommute(s: string)
    ensures ToLowerAscii(Trim(s)) == Trim(ToLowerAscii(s))
  {
    TrimStartLower(s);
    TrimEndLower(TrimStart(s));
  }

  lemma {:induction false} TrimStartSkip(pre: string, s: string)
    requires AllTrimmable(pre)
    ensures TrimStart(pre + s) == TrimStart(s)
    decreases |pre|
  {
    if pre != [] {
      assert (pre + s)[1..] == pre[1..] + s;
      TrimStartSkip(pre[1..], s);
    } else {
      assert pre + s == s;
    }
  }

  lemma {:induction false} TrimEndSkip(s: string, post: string)
    requires AllTrimmable(post)
    ensures TrimEnd(s + post) == TrimEnd(s)
    decreases |post|
  {
    if post != [] {
      assert (s + post)[..|s + post| - 1] == s + post[..|post| - 1];
      TrimEndSkip(s, post[..|post| - 1]);
    } else {
      assert s + post == s;
    }
  }

  lemma {:induction false} TrimStartAppend(s: string, post: string)
    requires TrimStart(s) != []
    ensures TrimStart(s + post) == TrimStart(s) + post
    decreases |s|
  {
    if IsTrimmable(s[0]) {
      assert (s + post)[1..] == s[1..] + post;
      TrimStartAppend(s[1..], post);
    }
  }

  /** `trim` ignores any blank padding around its argument. */
  lemma TrimIgnoresPadding(pre: string, s: string, post: string)
    requires AllTrimmable(pre) && AllTrimmable(post)
    ensures Trim(pre + s + post) == Trim(s)
  {
    assert pre + s + post == pre + (s + post);
    TrimStartSkip(pre, s + post);
    assert Trim(pre + s + post) == Trim(s + post);
    TrimIgnoresTrailing(s, post);
  }

  lemma TrimIgnoresTrailing(s: string, post: string)
    requires AllTrimmable(post)
    ensures Trim(s + post) == Trim(s)
  {
    if TrimStart(s) == [] {
      AllBlankJoin(s, post);
    } else {
      TrimStartAppend(s, post);
      TrimEndSkip(TrimStart(s), post);
    }
  }

  lemma AllBlankJoin(s: string, post: string)
    requires TrimStart(s) == [] && AllTrimmable(post)
    ensures Trim(s + post) == []
  {
    assert AllTrimmable(s) by {
      assert s[..|s| - |TrimStart(s)|] == s;
    }
    forall i | 0 <= i < |s + post|
      ensures IsTrimmable((s + post)[i])
    {
      if i < |s| {
        assert (s + post)[i] == s[i];
      } else {
        assert (s + post)[i] == post[i - |s|];
      }
    }
  }

  /** A trimmed string is left as it is by `trim`; in particular `trim` is idempotent. */
  lemma TrimmedIsFixed(s: string)
    requires IsTrimmed(s)
    ensures Trim(s) == s
  {
  }

  lemma TrimIdempotent(s: string)
    ensures Trim(Trim(s)) == Trim(s)
  {
    TrimmedIsFixed(Trim(s));
  }

  lemma LowerIsLowerCase(s: string)
    ensures IsLowerCase(ToLowerAscii(s))
  {
  }

  /** Lower-casing leaves a string without capitals as it is; in particular it is idempotent. */
  lemma LowerCaseIsFixed(s: string)
    requires IsLowerCase(s)
    ensures ToLowerAscii(s) == s
  {
  }
}
