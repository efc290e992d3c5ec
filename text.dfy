/** The string primitives the note code relies on: `String.prototype.trim`,
    `toLowerCase` and `includes`, over strings as sequences of characters. */
module Text {

  /** WhiteSpace and LineTerminator code points of ECMAScript (sections 12.2
      and 12.3 of ECMA-262), which is what `trim` strips from both ends:
      TAB..CR, SPACE, NBSP, the Zs separators, LS, PS and the BOM. */
  function IsWs(c: char): (b: bool)
    ensures c == ' ' || c == '\t' || c == '\n' || c == '\r' ==> b
    ensures 'a' <= c <= 'z' || 'A' <= c <= 'Z' || '0' <= c <= '9' ==> !b
  {
    ('\t' <= c <= '\r') || c == ' ' || c == '\U{00A0}' || c == '\U{1680}'
    || ('\U{2000}' <= c <= '\U{200A}') || c == '\U{2028}' || c == '\U{2029}'
    || c == '\U{202F}' || c == '\U{205F}' || c == '\U{3000}' || c == '\U{FEFF}'
  }

  /** Every character of `s` is whitespace (vacuously true of ""). */
  predicate AllWs(s: string) {
    forall i :: 0 <= i < |s| ==> IsWs(s[i])
  }

  /** `s` neither starts nor ends with whitespace. */
  predicate Trimmed(s: string) {
    s == [] || (!IsWs(s[0]) && !IsWs(s[|s| - 1]))
  }

  /** Drops leading whitespace: the result does not start with whitespace
      (`TrimStartSlice` says which part of `s` it is). */
  function TrimStart(s: string): (r: string)
    ensures |r| <= |s|
    ensures r == [] || !IsWs(r[0])
  {
    if s != [] && IsWs(s[0]) then TrimStart(s[1..]) else s
  }

  /** Drops trailing whitespace: the result does not end with whitespace
      (`TrimEndSlice` says which part of `s` it is). */
  function TrimEnd(s: string): (r: string)
    ensures |r| <= |s|
    ensures r == [] || !IsWs(r[|r| - 1])
  {
    if s != [] && IsWs(s[|s| - 1]) then TrimEnd(s[..|s| - 1]) else s
  }

  /** `TrimStart` returns the suffix of `s` after a whitespace-only prefix. */
  lemma {:induction false} TrimStartSlice(s: string)
    ensures TrimStart(s) == s[|s| - |TrimStart(s)|..]
    ensures AllWs(s[..|s| - |TrimStart(s)|])
  {
    if s != [] && IsWs(s[0]) {
      var t := s[1..];
      TrimStartSlice(t);
      var r := TrimStart(t);
      assert TrimStart(s) == r;
      assert t[|t| - |r|..] == s[|s| - |r|..];
      var dropped := s[..|s| - |r|];
      forall k | 0 <= k < |dropped| ensures IsWs(dropped[k]) {
        if k > 0 {
          assert dropped[k] == t[..|t| - |r|][k - 1];
        }
      }
    } else {
      assert s[|s| - |s|..] == s;
    }
  }

  /** `TrimEnd` returns the prefix of `s` before a whitespace-only suffix. */
  lemma {:induction false} TrimEndSlice(s: string)
    ensures TrimEnd(s) == s[..|TrimEnd(s)|]
    ensures AllWs(s[|TrimEnd(s)|..])
  {
    if s != [] && IsWs(s[|s| - 1]) {
      var t := s[..|s| - 1];
      TrimEndSlice(t);
      var r := TrimEnd(t);
      assert TrimEnd(s) == r;
      assert t[..|r|] == s[..|r|];
      var dropped := s[|r|..];
      forall k | 0 <= k < |dropped| ensures IsWs(dropped[k]) {
        if |r| + k < |t| {
          assert dropped[k] == t[|r|..][k];
        }
      }
    } else {
      assert s[..|s|] == s;
    }
  }

  lemma TrimEndKeepsHead(s: string)
    requires s != [] && !IsWs(s[0])
    ensures TrimEnd(s) != [] && TrimEnd(s)[0] == s[0]
  {
    TrimEndSlice(s);
  }

  /** `String.prototype.trim`. */
  function Trim(s: string): (r: string)
    ensures Trimmed(r) && |r| <= |s|
  {
    var t := TrimStart(s);
    if t != [] then TrimEndKeepsHead(t); TrimEnd(t) else TrimEnd(t)
  }

  /** The trimmed string is the input with a whitespace-only prefix and
      suffix removed. */
  lemma TrimSlice(s: string) returns (i: nat, j: nat)
    ensures i <= j <= |s| && Trim(s) == s[i..j]
    ensures AllWs(s[..i]) && AllWs(s[j..])
  {
    var t := TrimStart(s);
    var r := TrimEnd(t);
    TrimStartSlice(s);
    TrimEndSlice(t);
    assert Trim(s) == r;
    i, j := |s| - |t|, |s| - |t| + |r|;
    assert t == s[i..] && AllWs(s[..i]);
    SliceOfSuffix(s, i, |r|);
    assert r == s[i..j] && AllWs(s[j..]);
  }

  lemma SliceOfSuffix(s: string, i: nat, m: nat)
    requires i + m <= |s|
    ensures s[i..][..m] == s[i..i + m]
    ensures s[i..][m..] == s[i + m..]
  {
  }

  lemma {:induction false} TrimStartOfTrimmedHead(s: string)
    requires s == [] || !IsWs(s[0])
    ensures TrimStart(s) == s
  {
  }

  lemma {:induction false} TrimEndOfTrimmedTail(s: string)
    requires s == [] || !IsWs(s[|s| - 1])
    ensures TrimEnd(s) == s
  {
  }

  /** Trimming a string that has no whitespace at its ends changes nothing. */
  lemma TrimOfTrimmed(s: string)
    requires Trimmed(s)
    ensures Trim(s) == s
  {
    TrimStartOfTrimmedHead(s);
    TrimEndOfTrimmedTail(s);
  }

  /** `trim` is idempotent. */
  lemma TrimIdempotent(s: string)
    ensures Trim(Trim(s)) == Trim(s)
  {
    TrimOfTrimmed(Trim(s));
  }

  /** A string trims to "" exactly when all of it is whitespace. */
  lemma {:induction false} TrimEmptyIffBlank(s: string)
    ensures Trim(s) == [] <==> AllWs(s)
  {
    var i, j := TrimSlice(s);
    if Trim(s) == [] {
      assert i == j;
      forall k | 0 <= k < |s| ensures IsWs(s[k]) {
        if k < i {
          assert s[k] == s[..i][k];
        } else {
          assert s[k] == s[j..][k - j];
        }
      }
    } else {
      assert s[i] == Trim(s)[0];
    }
  }

  /** ASCII case mapping of `toLowerCase`: 'A'..'Z' become 'a'..'z', every
      other character is kept. */
  function LowerChar(c: char): (d: char)
    ensures 'A' <= c <= 'Z' ==> d as int == c as int + 32
    ensures !('A' <= c <= 'Z') ==> d == c
  {
    if 'A' <= c <= 'Z' then (c as int + 32) as char else c
  }

  /** `toLowerCase`, character by character. */
  function Lower(s: string): (r: string)
    ensures |r| == |s|
    ensures forall i :: 0 <= i < |s| ==> r[i] == LowerChar(s[i])
  {
    seq(|s|, i requires 0 <= i < |s| => LowerChar(s[i]))
  }

  /** `needle` occurs in `hay` starting at index `i`. */
  predicate OccursAt(hay: string, needle: string, i: int) {
    0 <= i <= |hay| - |needle| && hay[i..i + |needle|] == needle
  }

  /** `String.prototype.includes`: `needle` occurs in `hay` as a contiguous
      run; the empty needle occurs in every string. */
  function Includes(hay: string, needle: string): (b: bool)
    ensures b <==> exists i :: OccursAt(hay, needle, i)
  {
    if needle <= hay then
      assert OccursAt(hay, needle, 0);
      true
    else if hay == [] then
      false
    else
      var b := Includes(hay[1..], needle);
      assert b ==> exists i :: OccursAt(hay, needle, i) by {
        if b {
          var k :| OccursAt(hay[1..], needle, k);
          assert hay[k + 1..k + 1 + |needle|] == hay[1..][k..k + |needle|];
          assert OccursAt(hay, needle, k + 1);
        }
      }
      assert (exists i :: OccursAt(hay, needle, i)) ==> b by {
        if i :| OccursAt(hay, needle, i) {
          if i > 0 {
            assert hay[i..i + |needle|] == hay[1..][i - 1..i - 1 + |needle|];
            assert OccursAt(hay[1..], needle, i - 1);
          }
        }
      }
      b
  }
}
