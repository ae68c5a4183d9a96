/**
 * UTF-8 validity as `String::from_utf8` checks it.
 *
 * Two definitions live here: the byte-sequence syntax of section 4 of
 * RFC 3629 (`IsUtf8Char`, `IsUtf8`), and the validator of the Rust
 * standard library that `read` relies on (`Validate`), which also
 * reports where the first bad sequence starts (`valid_up_to`) and how
 * long it is (`error_len`).  `ValidateAgreesWithRfc3629` ties the two.
 */
module Utf8 {
  import opened Wrappers

  type byte = b: int | 0 <= b < 256

  /** UTF8-tail = %x80-BF */
  predicate IsTail(b: byte) {
    0x80 <= b <= 0xBF
  }

  /** UTF8-char = UTF8-1 / UTF8-2 / UTF8-3 / UTF8-4, section 4 of RFC 3629. */
  ghost predicate IsUtf8Char(c: seq<byte>) {
    || (|c| == 1 && c[0] <= 0x7F)
    || (|c| == 2 && 0xC2 <= c[0] <= 0xDF && IsTail(c[1]))
    || (|c| == 3 && IsTail(c[2]) &&
        (|| (c[0] == 0xE0 && 0xA0 <= c[1] <= 0xBF)
         || (0xE1 <= c[0] <= 0xEC && IsTail(c[1]))
         || (c[0] == 0xED && 0x80 <= c[1] <= 0x9F)
         || (0xEE <= c[0] <= 0xEF && IsTail(c[1]))))
    || (|c| == 4 && IsTail(c[2]) && IsTail(c[3]) &&
        (|| (c[0] == 0xF0 && 0x90 <= c[1] <= 0xBF)
         || (0xF1 <= c[0] <= 0xF3 && IsTail(c[1]))
         || (c[0] == 0xF4 && 0x80 <= c[1] <= 0x8F)))
  }

  /** UTF8-octets = *( UTF8-char ) */
  ghost predicate IsUtf8(s: seq<byte>)
    decreases |s|
  {
    s == [] || exists k | 1 <= k <= 4 && k <= |s| :: IsUtf8Char(s[..k]) && IsUtf8(s[k..])
  }

  /** The width a lead byte announces (`utf8_char_width`); 0 for a byte no character starts with. */
  function Width(b: byte): nat {
    if b <= 0x7F then 1
    else if 0xC2 <= b <= 0xDF then 2
    else if 0xE0 <= b <= 0xEF then 3
    else if 0xF0 <= b <= 0xF4 then 4
    else 0
  }

  /** Whether `b` may follow the lead byte `lead` as the second byte of a character. */
  predicate SecondOk(lead: byte, b: byte) {
    if lead == 0xE0 then 0xA0 <= b <= 0xBF
    else if lead == 0xED then 0x80 <= b <= 0x9F
    else if lead == 0xF0 then 0x90 <= b <= 0xBF
    else if lead == 0xF4 then 0x80 <= b <= 0x8F
    else IsTail(b)
  }

  /**
   * How many bytes from `s[i]` on fit the character `s[i]` announces, as
   * the validator's unrolled per-width checks count them: it stops at the
   * first byte that does not fit or at the end of the input.
   */
  function Agreeing(s: seq<byte>, i: nat): (n: nat)
    requires i < |s| && Width(s[i]) > 0
    ensures 1 <= n <= Width(s[i]) && i + n <= |s|
    ensures n < Width(s[i]) && i + n < |s| ==> !(if n == 1 then SecondOk(s[i], s[i + 1]) else IsTail(s[i + n]))
  {
    var w := Width(s[i]);
    if w == 1 || i + 1 == |s| || !SecondOk(s[i], s[i + 1]) then 1
    else if w == 2 || i + 2 == |s| || !IsTail(s[i + 2]) then 2
    else if w == 3 || i + 3 == |s| || !IsTail(s[i + 3]) then 3
    else 4
  }

  /** `Utf8Error`: the longest valid prefix, and the length of the bad sequence (None: the input ended inside a character). */
  datatype Utf8Error = Utf8Error(validUpTo: nat, errorLen: Option<nat>)

  /** `run_utf8_validation` from index `i`: None when `s[i..]` is valid. */
  function Validate(s: seq<byte>, i: nat): (r: Option<Utf8Error>)
    requires i <= |s|
    ensures r.Some? ==> i <= r.value.validUpTo < |s|
    decreases |s| - i
  {
    if i == |s| then None
    else
      var w := Width(s[i]);
      if w == 0 then Some(Utf8Error(i, Some(1)))
      else
        var n := Agreeing(s, i);
        if n == w then Validate(s, i + w)
        else if i + n == |s| then Some(Utf8Error(i, None))
        else Some(Utf8Error(i, Some(n)))
  }

  /** A complete character at `i` is exactly one the validator accepts whole. */
  lemma CharAt(s: seq<byte>, i: nat, k: nat)
    requires i < |s| && 1 <= k <= 4 && i + k <= |s|
    ensures IsUtf8Char(s[i..i + k]) <==> (Width(s[i]) == k && Agreeing(s, i) == k)
  {
    var c := s[i..i + k];
    assert c[0] == s[i];
    if k >= 2 { assert c[1] == s[i + 1]; }
    if k >= 3 { assert c[2] == s[i + 2]; }
    if k >= 4 { assert c[3] == s[i + 3]; }
  }

  /** Splitting off one character of a valid sequence. */
  lemma {:induction false} ConsChar(s: seq<byte>, k: nat)
    requires 1 <= k <= 4 && k <= |s|
    requires IsUtf8Char(s[..k])
    ensures IsUtf8(s) <==> IsUtf8(s[k..])
  {
    if IsUtf8(s) {
      var j :| 1 <= j <= 4 && j <= |s| && IsUtf8Char(s[..j]) && IsUtf8(s[j..]);
      CharAt(s, 0, j);
      CharAt(s, 0, k);
      assert s[0..j] == s[..j] && s[0..k] == s[..k];
    }
  }

  /** No character starts at `i` in a sequence the validator rejects there. */
  lemma NoCharAt(s: seq<byte>, i: nat)
    requires i < |s|
    requires Width(s[i]) == 0 || Agreeing(s, i) < Width(s[i])
    ensures !IsUtf8(s[i..])
  {
  }

  /** The validator accepts `s[i..]` exactly when it is UTF8-octets. */
  lemma {:induction false} ValidateAgreesWithRfc3629(s: seq<byte>, i: nat)
    requires i <= |s|
    ensures Validate(s, i).None? <==> IsUtf8(s[i..])
    decreases |s| - i
  {
    if i < |s| {
      var w := Width(s[i]);
      if w == 0 || Agreeing(s, i) < w {
        NoCharAt(s, i);
      } else {
        ValidateAgreesWithRfc3629(s, i + w);
        CharAt(s, i, w);
        assert s[i..][..w] == s[i..i + w];
        assert s[i..][w..] == s[i + w..];
        ConsChar(s[i..], w);
      }
    }
  }

  /**
   * What a reported error says about the input: everything before
   * `validUpTo` is valid, nothing valid starts at `validUpTo`, and the
   * bad sequence is 1 to 3 bytes long, or else the input ends inside a
   * character.
   */
  lemma {:induction false} Utf8ErrorDescribesInput(s: seq<byte>, i: nat)
    requires i <= |s| && Validate(s, i).Some?
    ensures var e := Validate(s, i).value;
      && IsUtf8(s[i..e.validUpTo])
      && !IsUtf8(s[e.validUpTo..])
      && (e.errorLen.Some? ==> 1 <= e.errorLen.value <= 3 && e.validUpTo + e.errorLen.value <= |s|)
      && (e.errorLen.None? ==> |s| - e.validUpTo < 4)
    decreases |s| - i
  {
    var w := Width(s[i]);
    if w == 0 || Agreeing(s, i) < w {
      NoCharAt(s, i);
      assert s[i..i] == [];
    } else {
      var v := Validate(s, i + w).value.validUpTo;
      Utf8ErrorDescribesInput(s, i + w);
      CharAt(s, i, w);
      // s[i..v] is the character at i followed by the valid s[i+w..v]
      assert i + w <= v;
      var t := s[i..v];
      assert t[..w] == s[i..i + w];
      assert t[w..] == s[i + w..v];
      ConsChar(t, w);
    }
  }
}
