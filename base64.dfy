/** Go's `base64.RawStdEncoding`: the standard alphabet of section 4 of
    RFC 4648 with the padding omitted (as section 3.2 permits). Decoding is
    Go's non-strict mode: the unused low bits of a final partial group are
    ignored, carriage returns and line feeds are skipped, and a final group
    of a single character, a `=` or any other character outside the
    alphabet is an error. */
module Base64 {
  import opened Prelude

  /** The message of Go's `CorruptInputError` (its byte offset is not modelled). */
  const CorruptInput := "illegal base64 data at input byte"

  /** The character of a 6-bit value. */
  function EncodeChar(v: Byte): (c: char)
    requires v < 64
  {
    if v < 26 then ('A' as int + v as int) as char
    else if v < 52 then ('a' as int + (v as int - 26)) as char
    else if v < 62 then ('0' as int + (v as int - 52)) as char
    else if v == 62 then '+'
    else '/'
  }

  /** The 6-bit value of an alphabet character; `None` outside the alphabet. */
  function DecodeChar(c: char): (r: Option<Byte>)
    ensures r.Some? ==> r.value < 64
  {
    if 'A' <= c <= 'Z' then Some((c as int - 'A' as int) as Byte)
    else if 'a' <= c <= 'z' then Some((c as int - 'a' as int + 26) as Byte)
    else if '0' <= c <= '9' then Some((c as int - '0' as int + 52) as Byte)
    else if c == '+' then Some(62)
    else if c == '/' then Some(63)
    else None
  }

  /** Every 6-bit value is read back from its character. */
  lemma DecodeEncodeChar(v: Byte)
    requires v < 64
    ensures DecodeChar(EncodeChar(v)) == Some(v)
  {
  }

  /** `len` of the encoding of `n` bytes: Go's `EncodedLen` without padding. */
  function EncodedLen(n: nat): nat {
    n / 3 * 4 + (n % 3 * 8 + 5) / 6
  }

  /** Three bytes as four characters. */
  function EncodeFull(b0: Byte, b1: Byte, b2: Byte): string {
    [EncodeChar(b0 >> 2), EncodeChar(((b0 << 4) | (b1 >> 4)) & 63),
     EncodeChar(((b1 << 2) | (b2 >> 6)) & 63), EncodeChar(b2 & 63)]
  }

  /** A final two bytes as three characters. */
  function EncodeTwo(b0: Byte, b1: Byte): string {
    [EncodeChar(b0 >> 2), EncodeChar(((b0 << 4) | (b1 >> 4)) & 63), EncodeChar((b1 << 2) & 63)]
  }

  /** A final byte as two characters. */
  function EncodeOne(b0: Byte): string {
    [EncodeChar(b0 >> 2), EncodeChar((b0 << 4) & 63)]
  }

  /** `EncodeToString`: every 3 bytes become 4 characters; a final 1 or 2
      bytes become 2 or 3 characters, with no padding. */
  function EncodeToString(src: seq<Byte>): (s: string)
    ensures |s| == EncodedLen(|src|)
  {
    if |src| == 0 then ""
    else if |src| == 1 then EncodeOne(src[0])
    else if |src| == 2 then EncodeTwo(src[0], src[1])
    else EncodeFull(src[0], src[1], src[2]) + EncodeToString(src[3..])
  }

  /** The input with every carriage return and line feed dropped. */
  function SkipNewlines(s: string): string {
    if |s| == 0 then ""
    else if s[0] == '\r' || s[0] == '\n' then SkipNewlines(s[1..])
    else [s[0]] + SkipNewlines(s[1..])
  }

  /** One group of 2 to 4 characters, as `decodeQuantum` turns it into 1 to 3
      bytes; the leftover low bits of a short group are dropped. */
  function DecodeGroup(g: string): (r: Result<seq<Byte>>)
    requires 2 <= |g| <= 4
    ensures r.Ok? <==> forall i :: 0 <= i < |g| ==> DecodeChar(g[i]).Some?
    ensures r.Ok? ==> |r.value| == |g| - 1
    ensures r.Err? ==> r.error == CorruptInput
  {
    var v0 := DecodeChar(g[0]);
    var v1 := DecodeChar(g[1]);
    var v2 := if |g| > 2 then DecodeChar(g[2]) else Some(0);
    var v3 := if |g| > 3 then DecodeChar(g[3]) else Some(0);
    if v0.None? || v1.None? || v2.None? || v3.None? then Err(CorruptInput)
    else
      var b0 := (v0.value << 2) | (v1.value >> 4);
      var b1 := (v1.value << 4) | (v2.value >> 2);
      var b2 := (v2.value << 6) | v3.value;
      Ok(if |g| == 2 then [b0] else if |g| == 3 then [b0, b1] else [b0, b1, b2])
  }

  /** Decoding of newline-free input, group by group; any bad group, or a
      final group of one character, fails the whole input. */
  function DecodeGroups(s: string): (r: Result<seq<Byte>>)
    ensures r.Err? ==> r.error == CorruptInput
  {
    if |s| == 0 then Ok([])
    else if |s| == 1 then Err(CorruptInput)
    else
      var n := if |s| < 4 then |s| else 4;
      match DecodeGroup(s[..n])
      case Err(e) => Err(e)
      case Ok(head) =>
        match DecodeGroups(s[n..])
        case Err(e) => Err(e)
        case Ok(tail) => Ok(head + tail)
  }

  /** `DecodeString`: the whole decoded value or an error, never a part. */
  function DecodeString(s: string): (r: Result<seq<Byte>>)
    ensures r.Err? ==> r.error == CorruptInput
  {
    DecodeGroups(SkipNewlines(s))
  }

  /** Every character of an encoded group is in the alphabet. */
  lemma EncodeGroupAlphabet(b0: Byte, b1: Byte, b2: Byte)
    ensures forall c :: c in EncodeFull(b0, b1, b2) ==> DecodeChar(c).Some?
    ensures forall c :: c in EncodeTwo(b0, b1) ==> DecodeChar(c).Some?
    ensures forall c :: c in EncodeOne(b0) ==> DecodeChar(c).Some?
  {
    DecodeEncodeChar(b0 >> 2);
    DecodeEncodeChar(((b0 << 4) | (b1 >> 4)) & 63);
    DecodeEncodeChar(((b1 << 2) | (b2 >> 6)) & 63);
    DecodeEncodeChar(b2 & 63);
    DecodeEncodeChar((b1 << 2) & 63);
    DecodeEncodeChar((b0 << 4) & 63);
  }

  /** The encoding uses only alphabet characters. */
  lemma {:induction false} EncodeShape(src: seq<Byte>)
    ensures forall c :: c in EncodeToString(src) ==> DecodeChar(c).Some?
  {
    if |src| >= 3 {
      EncodeShape(src[3..]);
      EncodeGroupAlphabet(src[0], src[1], src[2]);
    } else if |src| == 2 {
      EncodeGroupAlphabet(src[0], src[1], 0);
    } else if |src| == 1 {
      EncodeGroupAlphabet(src[0], 0, 0);
    }
  }

  /** Text made of alphabet characters has no newline to skip. */
  lemma {:induction false} SkipNewlinesAlphabet(s: string)
    requires forall c :: c in s ==> DecodeChar(c).Some?
    ensures SkipNewlines(s) == s
  {
    if |s| > 0 {
      assert s[0] in s;
      assert forall c :: c in s[1..] ==> c in s;
      SkipNewlinesAlphabet(s[1..]);
    }
  }

  /** The bit arithmetic of one group: the decoder's shifts undo the encoder's. */
  lemma GroupBits(b0: Byte, b1: Byte, b2: Byte)
    ensures ((b0 >> 2) << 2) | ((((b0 << 4) | (b1 >> 4)) & 63) >> 4) == b0
    ensures ((((b0 << 4) | (b1 >> 4)) & 63) << 4) | ((((b1 << 2) | (b2 >> 6)) & 63) >> 2) == b1
    ensures ((((b1 << 2) | (b2 >> 6)) & 63) << 6) | (b2 & 63) == b2
    ensures ((((b0 << 4) | (b1 >> 4)) & 63) << 4) | (((b1 << 2) & 63) >> 2) == b1
    ensures ((b0 >> 2) << 2) | (((b0 << 4) & 63) >> 4) == b0
  {
  }

  /** Three bytes are read back from their four characters. */
  lemma FullRoundTrip(b0: Byte, b1: Byte, b2: Byte)
    ensures DecodeGroup(EncodeFull(b0, b1, b2)) == Ok([b0, b1, b2])
  {
    DecodeEncodeChar(b0 >> 2);
    DecodeEncodeChar(((b0 << 4) | (b1 >> 4)) & 63);
    DecodeEncodeChar(((b1 << 2) | (b2 >> 6)) & 63);
    DecodeEncodeChar(b2 & 63);
    GroupBits(b0, b1, b2);
  }

  /** A final two bytes are read back from their three characters. */
  lemma TwoRoundTrip(b0: Byte, b1: Byte)
    ensures DecodeGroup(EncodeTwo(b0, b1)) == Ok([b0, b1])
  {
    DecodeEncodeChar(b0 >> 2);
    DecodeEncodeChar(((b0 << 4) | (b1 >> 4)) & 63);
    DecodeEncodeChar((b1 << 2) & 63);
    GroupBits(b0, b1, 0);
  }

  /** A final byte is read back from its two characters. */
  lemma OneRoundTrip(b0: Byte)
    ensures DecodeGroup(EncodeOne(b0)) == Ok([b0])
  {
    DecodeEncodeChar(b0 >> 2);
    DecodeEncodeChar((b0 << 4) & 63);
    GroupBits(b0, 0, 0);
  }

  /** Decoding inverts encoding on newline-free text, group by group. */
  lemma {:induction false} GroupsRoundTrip(src: seq<Byte>)
    ensures DecodeGroups(EncodeToString(src)) == Ok(src)
  {
    if |src| == 1 {
      OneRoundTrip(src[0]);
      assert EncodeOne(src[0])[..2] == EncodeOne(src[0]);
      assert [src[0]] + [] == src;
    } else if |src| == 2 {
      TwoRoundTrip(src[0], src[1]);
      assert EncodeTwo(src[0], src[1])[..3] == EncodeTwo(src[0], src[1]);
      assert [src[0], src[1]] + [] == src;
    } else if |src| >= 3 {
      var e := EncodeToString(src);
      var full := EncodeFull(src[0], src[1], src[2]);
      FullRoundTrip(src[0], src[1], src[2]);
      assert e[..4] == full;
      assert e[4..] == EncodeToString(src[3..]);
      GroupsRoundTrip(src[3..]);
      assert [src[0], src[1], src[2]] + src[3..] == src;
    }
  }

  /** For every byte sequence, `DecodeString(EncodeToString(x)) == x`. */
  lemma RoundTrip(src: seq<Byte>)
    ensures DecodeString(EncodeToString(src)) == Ok(src)
  {
    EncodeShape(src);
    SkipNewlinesAlphabet(EncodeToString(src));
    GroupsRoundTrip(src);
  }

  /** Different byte sequences never share an encoding. */
  lemma EncodeInjective(x: seq<Byte>, y: seq<Byte>)
    requires EncodeToString(x) == EncodeToString(y)
    ensures x == y
  {
    RoundTrip(x);
    RoundTrip(y);
  }

  /** Newline-free text with a character outside the alphabet never decodes. */
  lemma {:induction false} GroupsRejectForeignChar(s: string, i: nat)
    requires i < |s| && DecodeChar(s[i]).None?
    ensures DecodeGroups(s).Err?
  {
    if |s| >= 2 {
      var n := if |s| < 4 then |s| else 4;
      if i >= n {
        if DecodeGroup(s[..n]).Ok? {
          GroupsRejectForeignChar(s[n..], i - n);
        }
      } else {
        assert s[..n][i] == s[i];
      }
    }
  }

  /** Newline-free text whose length leaves one character over never decodes. */
  lemma {:induction false} GroupsRejectLoneChar(s: string)
    requires |s| % 4 == 1
    ensures DecodeGroups(s).Err?
  {
    if |s| > 1 {
      var rest := s[4..];
      assert |s| >= 5;
      assert |rest| % 4 == 1;
      GroupsRejectLoneChar(rest);
      assert s[..4] + rest == s;
    }
  }

  /** Skipping newlines keeps every other character. */
  lemma {:induction false} SkipNewlinesKeeps(s: string, i: nat)
    requires i < |s| && s[i] != '\r' && s[i] != '\n'
    ensures s[i] in SkipNewlines(s)
  {
    if i > 0 {
      SkipNewlinesKeeps(s[1..], i - 1);
    }
  }

  /** Stored text holding a character that is neither in the alphabet nor a
      newline (a `=` pad, say) is refused, not partly decoded. */
  lemma RejectForeignChar(s: string, i: nat)
    requires i < |s| && s[i] != '\r' && s[i] != '\n' && DecodeChar(s[i]).None?
    ensures DecodeString(s).Err?
  {
    SkipNewlinesKeeps(s, i);
    var t := SkipNewlines(s);
    var j :| 0 <= j < |t| && t[j] == s[i];
    GroupsRejectForeignChar(t, j);
  }

  /** What Go's decoder accepts: once carriage returns and line feeds are
      skipped, only alphabet characters, and no final group of a single
      character. */
  predicate WellFormed(s: string) {
    && (forall i :: 0 <= i < |s| && s[i] != '\r' && s[i] != '\n' ==> DecodeChar(s[i]).Some?)
    && |SkipNewlines(s)| % 4 != 1
  }

  /** Newline-free text of alphabet characters whose length leaves no single
      character over decodes. */
  lemma {:induction false} GroupsAccept(s: string)
    requires forall i :: 0 <= i < |s| ==> DecodeChar(s[i]).Some?
    requires |s| % 4 != 1
    ensures DecodeGroups(s).Ok?
  {
    if |s| >= 2 {
      var n := if |s| < 4 then |s| else 4;
      assert forall i :: 0 <= i < n ==> s[..n][i] == s[i];
      var rest := s[n..];
      assert forall i :: 0 <= i < |rest| ==> rest[i] == s[n + i];
      if |s| >= 4 {
        assert |rest| % 4 == |s| % 4;
      }
      GroupsAccept(rest);
    }
  }

  /** Skipping newlines keeps only characters of the input that are not
      newlines. */
  lemma {:induction false} SkipNewlinesFrom(s: string)
    ensures forall c :: c in SkipNewlines(s) ==> c in s && c != '\r' && c != '\n'
  {
    if |s| > 0 {
      SkipNewlinesFrom(s[1..]);
    }
  }

  /** `DecodeString` succeeds exactly on well-formed text: a foreign
      character anywhere, or a lone final character, is refused. */
  lemma DecodeStringAccepts(s: string)
    ensures DecodeString(s).Ok? <==> WellFormed(s)
  {
    var t := SkipNewlines(s);
    if WellFormed(s) {
      SkipNewlinesFrom(s);
      forall j | 0 <= j < |t|
        ensures DecodeChar(t[j]).Some?
      {
        assert t[j] in t;
        var i :| 0 <= i < |s| && s[i] == t[j];
      }
      GroupsAccept(t);
    } else if |t| % 4 == 1 {
      GroupsRejectLoneChar(t);
    } else {
      var i :| 0 <= i < |s| && s[i] != '\r' && s[i] != '\n' && DecodeChar(s[i]).None?;
      RejectForeignChar(s, i);
    }
  }

  /** Stored text cut one character past a whole number of groups is refused. */
  lemma RejectLoneChar(s: string)
    requires |SkipNewlines(s)| % 4 == 1
    ensures DecodeString(s).Err?
  {
    GroupsRejectLoneChar(SkipNewlines(s));
  }
}
