/** `String.prototype.trim` and `startsWith` on UTF-16 strings, as the lyric
    filter uses them. */
module JsString {

  /** The characters ECMAScript's trim removes: the WhiteSpace code points
      (tab, vertical tab, form feed, space, no-break space, zero width
      no-break space and the Unicode space separators) and the
      LineTerminator code points (LF, CR, LS, PS). */
  predicate IsTrimmable(c: char)
  {
    var u := c as int;
    || 0x09 <= u <= 0x0D          // tab, LF, vertical tab, form feed, CR
    || u == 0x20 || u == 0xA0     // space, no-break space
    || u == 0x1680
    || 0x2000 <= u <= 0x200A
    || u == 0x2028 || u == 0x2029 // line and paragraph separators
    || u == 0x202F || u == 0x205F || u == 0x3000
    || u == 0xFEFF                // zero width no-break space
  }

  /** The index of the first character that is not trimmable, or |s|. */
  function StartIndex(s: string, i: nat): (r: nat)
    requires i <= |s|
    ensures i <= r <= |s|
    decreases |s| - i
  {
    if i < |s| && IsTrimmable(s[i]) then StartIndex(s, i + 1) else i
  }

  /** One past the last character at or after `lo` that is not trimmable,
      or `lo`. */
  function EndIndex(s: string, lo: nat, j: nat): (r: nat)
    requires lo <= j <= |s|
    ensures lo <= r <= j
    decreases j
  {
    if lo < j && IsTrimmable(s[j - 1]) then EndIndex(s, lo, j - 1) else j
  }

  function Trim(s: string): (r: string)
  {
    var lo := StartIndex(s, 0);
    s[lo..EndIndex(s, lo, |s|)]
  }

  predicate StartsWith(s: string, prefix: string)
  {
    |prefix| <= |s| && s[..|prefix|] == prefix
  }

  lemma {:induction false} StartIndexSpec(s: string, i: nat)
    requires i <= |s|
    ensures forall k :: i <= k < StartIndex(s, i) ==> IsTrimmable(s[k])
    ensures StartIndex(s, i) < |s| ==> !IsTrimmable(s[StartIndex(s, i)])
    decreases |s| - i
  {
    if i < |s| && IsTrimmable(s[i]) {
      StartIndexSpec(s, i + 1);
    }
  }

  lemma {:induction false} EndIndexSpec(s: string, lo: nat, j: nat)
    requires lo <= j <= |s|
    ensures forall k :: EndIndex(s, lo, j) <= k < j ==> IsTrimmable(s[k])
    ensures lo < EndIndex(s, lo, j) ==> !IsTrimmable(s[EndIndex(s, lo, j) - 1])
    decreases j
  {
    if lo < j && IsTrimmable(s[j - 1]) {
      EndIndexSpec(s, lo, j - 1);
    }
  }

  /** Trim removes exactly the trimmable characters at both ends: the result
      is a slice of `s`, everything cut off is trimmable, and the result
      neither starts nor ends with a trimmable character. */
  lemma TrimSpec(s: string)
    ensures exists lo, hi ::
      && 0 <= lo <= hi <= |s|
      && Trim(s) == s[lo..hi]
      && (forall k :: 0 <= k < lo ==> IsTrimmable(s[k]))
      && (forall k :: hi <= k < |s| ==> IsTrimmable(s[k]))
    ensures Trim(s) != [] ==> !IsTrimmable(Trim(s)[0]) && !IsTrimmable(Trim(s)[|Trim(s)| - 1])
  {
    var lo := StartIndex(s, 0);
    var hi := EndIndex(s, lo, |s|);
    StartIndexSpec(s, 0);
    EndIndexSpec(s, lo, |s|);
    if lo < hi {
      assert Trim(s)[0] == s[lo];
      assert Trim(s)[|Trim(s)| - 1] == s[hi - 1];
    }
    assert Trim(s) == s[lo..hi];
  }

  /** A string trims to nothing exactly when all its characters are
      trimmable. */
  lemma TrimBlank(s: string)
    ensures Trim(s) == [] <==> forall k :: 0 <= k < |s| ==> IsTrimmable(s[k])
  {
    var lo := StartIndex(s, 0);
    var hi := EndIndex(s, lo, |s|);
    StartIndexSpec(s, 0);
    EndIndexSpec(s, lo, |s|);
  }

  /** Trimming twice is trimming once. */
  lemma TrimIdempotent(s: string)
    ensures Trim(Trim(s)) == Trim(s)
  {
    TrimSpec(s);
    var t := Trim(s);
    StartIndexSpec(t, 0);
    if t != [] {
      assert StartIndex(t, 0) == 0;
      EndIndexSpec(t, 0, |t|);
      assert EndIndex(t, 0, |t|) == |t|;
    }
    assert t[0..|t|] == t;
  }
}
