/** The text form of a UUID: printing, and the parser with its three accepted spellings. */
module UuidText {
  import opened Uuid

  const URN_PREFIX := "urn:uuid:"

  // ----- hexadecimal -------------------------------------------------------

  function HexChar(n: int): (c: char)
    requires 0 <= n < 16
  {
    if n < 10 then '0' + n as char else 'a' + (n - 10) as char
  }

  predicate IsHex(c: char) {
    '0' <= c <= '9' || 'a' <= c <= 'f' || 'A' <= c <= 'F'
  }

  function HexVal(c: char): (n: int)
    requires IsHex(c)
    ensures 0 <= n < 16
  {
    if c <= '9' then c as int - '0' as int
    else if c <= 'F' then c as int - 'A' as int + 10
    else c as int - 'a' as int + 10
  }

  function Lower(c: char): char {
    if 'A' <= c <= 'F' then (c as int + 32) as char else c
  }

  predicate AllHex(s: string) {
    forall k :: 0 <= k < |s| ==> IsHex(s[k])
  }

  /** Two digits a byte. */
  function Hex(bytes: Bytes): (s: string)
    ensures |s| == 2 * |bytes|
    decreases |bytes|
  {
    if |bytes| == 0 then "" else [HexChar(bytes[0] / 16), HexChar(bytes[0] % 16)] + Hex(bytes[1..])
  }

  /** The bytes decoded before the first pair that is not hexadecimal. */
  function Unhex(s: string): (bytes: Bytes)
    ensures |bytes| <= |s| / 2
    decreases |s|
  {
    if |s| < 2 || !IsHex(s[0]) || !IsHex(s[1]) then []
    else [HexVal(s[0]) * 16 + HexVal(s[1])] + Unhex(s[2..])
  }

  lemma {:induction false} UnhexWhole(s: string)
    requires |s| % 2 == 0
    ensures |Unhex(s)| == |s| / 2 <==> AllHex(s)
    decreases |s|
  {
    if |s| > 0 {
      UnhexWhole(s[2..]);
      assert forall k :: 0 <= k < |s| - 2 ==> s[2..][k] == s[k + 2];
      assert AllHex(s) ==> IsHex(s[0]) && IsHex(s[1]);
      assert IsHex(s[0]) && IsHex(s[1]) && AllHex(s[2..]) ==> AllHex(s) by {
        forall k | 0 <= k < |s| && IsHex(s[0]) && IsHex(s[1]) && AllHex(s[2..])
          ensures IsHex(s[k])
        {
          if k >= 2 {
            assert s[k] == s[2..][k - 2];
          }
        }
      }
    }
  }

  // ----- the text form -----------------------------------------------------

  predicate IsDash(k: int) {
    k == 8 || k == 13 || k == 18 || k == 23
  }

  /** Thirty-two hexadecimal digits of either case, dashed 8-4-4-4-12 (RFC 4122, section 3). */
  predicate WellFormed(t: string) {
    |t| == 36 && forall k :: 0 <= k < 36 ==> if IsDash(k) then t[k] == '-' else IsHex(t[k])
  }

  /** Where the two digits of byte i stand. */
  function Place(i: nat): nat {
    2 * i + if i < 4 then 0 else if i < 6 then 1 else if i < 8 then 2 else if i < 10 then 3 else 4
  }

  /** The bytes a well-formed text spells. */
  function BytesOf(t: string): (u: Bytes)
    requires WellFormed(t)
    ensures |u| == 16
  {
    seq(16, i requires 0 <= i < 16 => HexVal(t[Place(i)]) * 16 + HexVal(t[Place(i) + 1]))
  }

  /** The byte whose digits stand at place k. */
  function ByteIndex(k: nat): nat {
    (k - if k < 8 then 0 else if k < 13 then 1 else if k < 18 then 2 else if k < 23 then 3 else 4) / 2
  }

  function Digit(b: Byte, high: bool): char {
    HexChar(if high then b / 16 else b % 16)
  }

  /** The text of a UUID, in lower case. */
  function Text(u: Bytes): (t: string)
    requires |u| == 16
    ensures |t| == 36
  {
    seq(36, k requires 0 <= k < 36 =>
      if IsDash(k) then '-' else Digit(u[ByteIndex(k)], k == Place(ByteIndex(k))))
  }

  datatype Outcome = Parsed | TooShort | TooLong | BadFormat | BadHex | Panicked

  function GroupSize(i: nat): nat {
    if i == 0 then 8 else if i < 4 then 4 else 12
  }

  /** How many bytes the groups before group i fill. */
  function Stored(i: nat): nat {
    if i == 0 then 0 else if i < 5 then 2 * i + 2 else 16
  }

  /** Why group i is not decoded, or Parsed if it is. */
  function Refusal(i: nat, t: string, braced: bool): (r: Outcome) {
    var g := GroupSize(i);
    if i > 0 && |t| == 0 then Panicked
    else if i > 0 && t[0] != '-' then BadFormat
    else
      var s := Undashed(i, t);
      if |s| < g then TooShort
      else if i == 4 && |s| > g && ((braced && s[g] != '}') || |s[g..]| > 1 || !braced) then TooLong
      else Parsed
  }

  function Undashed(i: nat, t: string): string {
    if i > 0 && |t| > 0 then t[1..] else t
  }

  /** The loop over the groups from group i on: how it ends, and the bytes it stores. */
  function Groups(i: nat, t: string, braced: bool): (r: (Outcome, Bytes))
    requires i <= 5
    decreases 5 - i
  {
    if i == 5 then (Parsed, [])
    else if Refusal(i, t, braced) != Parsed then (Refusal(i, t, braced), [])
    else
      var s, g := Undashed(i, t), GroupSize(i);
      var bytes := Unhex(s[..g]);
      if |bytes| < g / 2 then (BadHex, bytes)
      else
        var rest := Groups(i + 1, s[g..], braced);
        (rest.0, bytes + rest.1)
  }

  /** What is left after the prefix, and whether the prefix was a brace. */
  function Unprefixed(text: string): (r: (string, bool))
    requires |text| >= 32
  {
    if text[..9] == URN_PREFIX then (text[9..], false)
    else if text[0] == '{' then (text[1..], true)
    else (text, false)
  }

  function Unmarshal(text: string): (r: (Outcome, Bytes)) {
    if |text| < 32 then (TooShort, [])
    else
      var rest := Unprefixed(text);
      Groups(0, rest.0, rest.1)
  }

  method HexEncode(dst: array<char>, at: nat, src: Bytes)
    requires at + 2 * |src| <= dst.Length
    modifies dst
    ensures forall k :: 0 <= k < 2 * |src| ==> dst[at + k] == Hex(src)[k]
    ensures forall k :: 0 <= k < dst.Length && !(at <= k < at + 2 * |src|) ==> dst[k] == old(dst[k])
  {
    hide Hex, HexChar;
    for j := 0 to |src|
      invariant forall k :: 0 <= k < 2 * j ==> dst[at + k] == Hex(src)[k]
      invariant forall k :: 0 <= k < dst.Length && !(at <= k < at + 2 * j) ==> dst[k] == old(dst[k])
    {
      HexAt(src, j);
      dst[at + 2 * j] := HexChar(src[j] / 16);
      dst[at + 2 * j + 1] := HexChar(src[j] % 16);
    }
  }

  lemma {:induction false} HexAt(bytes: Bytes, k: nat)
    requires k < |bytes|
    ensures Hex(bytes)[2 * k] == HexChar(bytes[k] / 16) && Hex(bytes)[2 * k + 1] == HexChar(bytes[k] % 16)
    decreases k
  {
    if k > 0 {
      HexAt(bytes[1..], k - 1);
    }
  }

  /** Decodes src into u from `at` on, as far as it is hexadecimal. */
  method HexDecode(u: array<Byte>, at: nat, src: string) returns (ok: bool)
    requires |src| % 2 == 0 && at + |src| / 2 <= u.Length
    modifies u
    ensures ok <==> |Unhex(src)| == |src| / 2
    ensures forall k :: at <= k < at + |Unhex(src)| ==> u[k] == Unhex(src)[k - at]
    ensures forall k :: 0 <= k < u.Length && !(at <= k < at + |Unhex(src)|) ==> u[k] == old(u[k])
  {
    hide IsHex, HexVal;
    var j := 0;
    while j < |src| / 2
      invariant j <= |src| / 2 && j <= |Unhex(src)|
      invariant Unhex(src)[j..] == Unhex(src[2 * j..])
      invariant forall k :: at <= k < at + j ==> u[k] == Unhex(src)[k - at]
      invariant forall k :: 0 <= k < u.Length && !(at <= k < at + j) ==> u[k] == old(u[k])
    {
      var s := src[2 * j..];
      if !IsHex(s[0]) || !IsHex(s[1]) {
        return false;
      }
      u[at + j] := HexVal(s[0]) * 16 + HexVal(s[1]);
      assert s[2..] == src[2 * (j + 1)..];
      assert Unhex(src)[j + 1..] == Unhex(src)[j..][1..];
      assert Unhex(src)[j] == Unhex(src)[j..][0];
      j := j + 1;
    }
    return true;
  }

  /** The 36 characters, filled group by group. */
  method String(u: Bytes) returns (s: string)
    requires |u| == 16
    ensures s == Text(u)
  {
    hide Hex, HexChar, Text;
    var buf := new char[36](i => '0');
    HexEncode(buf, 0, u[0..4]);
    buf[8] := '-';
    HexEncode(buf, 9, u[4..6]);
    buf[13] := '-';
    HexEncode(buf, 14, u[6..8]);
    buf[18] := '-';
    HexEncode(buf, 19, u[8..10]);
    buf[23] := '-';
    HexEncode(buf, 24, u[10..16]);
    s := buf[..];
    assert forall k :: 0 <= k < 8 ==> s[k] == buf[0 + k];
    assert forall k :: 9 <= k < 13 ==> s[k] == buf[9 + (k - 9)];
    TextByGroups(u, s);
  }

  /** A text whose five groups are the digits of the five parts of u is its text. */
  lemma TextByGroups(u: Bytes, s: string)
    requires |u| == 16 && |s| == 36
    requires forall k :: 0 <= k < 36 && IsDash(k) ==> s[k] == '-'
    requires forall k :: 0 <= k < 8 ==> s[0 + k] == Hex(u[0..4])[k]
    requires forall k :: 0 <= k < 4 ==> s[9 + k] == Hex(u[4..6])[k]
    requires forall k :: 0 <= k < 4 ==> s[14 + k] == Hex(u[6..8])[k]
    requires forall k :: 0 <= k < 4 ==> s[19 + k] == Hex(u[8..10])[k]
    requires forall k :: 0 <= k < 12 ==> s[24 + k] == Hex(u[10..16])[k]
    ensures s == Text(u)
  {
    hide Hex, HexChar, Digit, Place, ByteIndex;
    forall k | 0 <= k < 36
      ensures s[k] == Text(u)[k]
    {
      if k < 8 {
        GroupChar(u, s, k, 0, 0, 4);
      } else if 8 < k < 13 {
        GroupChar(u, s, k, 9, 4, 6);
      } else if 13 < k < 18 {
        GroupChar(u, s, k, 14, 6, 8);
      } else if 18 < k < 23 {
        GroupChar(u, s, k, 19, 8, 10);
      } else if 23 < k {
        GroupChar(u, s, k, 24, 10, 16);
      }
    }
  }

  predicate IsGroup(start: nat, lo: nat, hi: nat) {
    (start, lo, hi) in {(0, 0, 4), (9, 4, 6), (14, 6, 8), (19, 8, 10), (24, 10, 16)}
  }

  lemma GroupChar(u: Bytes, s: string, k: nat, start: nat, lo: nat, hi: nat)
    requires |u| == 16 && |s| == 36 && lo < hi <= 16 && IsGroup(start, lo, hi)
    requires start <= k < start + 2 * (hi - lo) <= 36
    requires s[start + (k - start)] == Hex(u[lo..hi])[k - start]
    ensures s[k] == Digit(u[ByteIndex(k)], k == Place(ByteIndex(k)))
  {
    hide Hex, HexChar;
    var i := (k - start) / 2;
    HexAt(u[lo..hi], i);
    assert u[lo..hi][i] == u[lo + i];
    assert ByteIndex(k) == lo + i;
    assert k == start + 2 * i || k == start + 2 * i + 1;
  }

  /** u is `was` with bytes stored at its front. */
  predicate Stores(u: Bytes, was: Bytes, bytes: Bytes) {
    |bytes| <= |u| == |was|
    && (forall k :: 0 <= k < |bytes| ==> u[k] == bytes[k])
    && (forall k :: |bytes| <= k < |u| ==> u[k] == was[k])
  }

  lemma StoresMore(now: Bytes, u: Bytes, was: Bytes, done: Bytes, bytes: Bytes)
    requires Stores(u, was, done) && |now| == |u| && |done| + |bytes| <= |u|
    requires forall k :: |done| <= k < |done| + |bytes| ==> now[k] == bytes[k - |done|]
    requires forall k :: 0 <= k < |u| && !(|done| <= k < |done| + |bytes|) ==> now[k] == u[k]
    ensures Stores(now, was, done + bytes)
  {
  }

  lemma StoresNone(u: Bytes)
    ensures Stores(u, u, [])
  {
  }

  method UnmarshalText(u: array<Byte>, text: string) returns (r: Outcome)
    requires u.Length == 16
    modifies u
    ensures r == Unmarshal(text).0
    ensures Stores(u[..], old(u[..]), Unmarshal(text).1)
  {
    hide Unhex, Groups, Stores;
    StoresNone(u[..]);
    if |text| < 32 {
      return TooShort;
    }
    var t, braced := text, false;
    if t[..9] == URN_PREFIX {
      t := t[9..];
    } else if t[0] == '{' {
      braced := true;
      t := t[1..];
    }
    assert (t, braced) == Unprefixed(text);
    ghost var all := Groups(0, t, braced);
    ghost var done: Bytes := [];
    var at := 0;
    for i := 0 to 5
      invariant at == Stored(i) == |done|
      invariant all.0 == Groups(i, t, braced).0 && all.1 == done + Groups(i, t, braced).1
      invariant Stores(u[..], old(u[..]), done)
    {
      GroupsFit(i, t, braced);
      GroupEnds(i, t, braced);
      GroupPasses(i, t, braced, done);
      assert done + [] == done;
      if i > 0 {
        if |t| == 0 {
          return Panicked;
        }
        if t[0] != '-' {
          return BadFormat;
        }
        t := t[1..];
      }
      var byteGroup := GroupSize(i);
      if |t| < byteGroup {
        return TooShort;
      }
      if i == 4 && |t| > byteGroup && ((braced && t[byteGroup] != '}') || |t[byteGroup..]| > 1 || !braced) {
        return TooLong;
      }
      ghost var before, bytes := u[..], Unhex(t[..byteGroup]);
      var ok := HexDecode(u, at, t[..byteGroup]);
      StoresMore(u[..], before, old(u[..]), done, bytes);
      if !ok {
        return BadHex;
      }
      done := done + bytes;
      t := t[byteGroup..];
      at := at + byteGroup / 2;
    }
    assert Groups(5, t, braced) == (Parsed, []) by { GroupEnds(5, t, braced); }
    return Parsed;
  }

  lemma GroupEnds(i: nat, t: string, braced: bool)
    requires i <= 5
    ensures i == 5 ==> Groups(i, t, braced) == (Parsed, [])
    ensures i < 5 && Refusal(i, t, braced) != Parsed ==> Groups(i, t, braced) == (Refusal(i, t, braced), [])
    ensures i < 5 && Refusal(i, t, braced) == Parsed ==>
      var bytes := Unhex(Undashed(i, t)[..GroupSize(i)]);
      |bytes| < GroupSize(i) / 2 ==> Groups(i, t, braced) == (BadHex, bytes)
  {
  }

  lemma GroupPasses(i: nat, t: string, braced: bool, done: Bytes)
    requires i < 5
    ensures Refusal(i, t, braced) == Parsed ==>
      var s, g := Undashed(i, t), GroupSize(i);
      var bytes, rest := Unhex(s[..g]), Groups(i + 1, s[g..], braced);
      |bytes| == g / 2 ==>
        Groups(i, t, braced).0 == rest.0 && done + Groups(i, t, braced).1 == done + bytes + rest.1
  {
    if Refusal(i, t, braced) == Parsed {
      var s, g := Undashed(i, t), GroupSize(i);
      var bytes, rest := Unhex(s[..g]), Groups(i + 1, s[g..], braced);
      assert done + (bytes + rest.1) == done + bytes + rest.1;
    }
  }

  lemma {:induction false} GroupsFit(i: nat, t: string, braced: bool)
    requires i <= 5
    ensures |Groups(i, t, braced).1| <= 16 - Stored(i)
    decreases 5 - i
  {
    var s := Undashed(i, t);
    if i < 5 && |s| >= GroupSize(i) {
      GroupsFit(i + 1, s[GroupSize(i)..], braced);
    }
  }

  // ----- what is accepted --------------------------------------------------

  /** What remains of a well-formed text from group i on, with the dash before it. */
  predicate Tail(i: nat, t: string)
    requires i <= 5
    decreases 5 - i
  {
    if i == 5 then t == ""
    else
      (i > 0 ==> |t| > 0 && t[0] == '-') &&
      var s, g := Undashed(i, t), GroupSize(i);
      |s| >= g && AllHex(s[..g]) && Tail(i + 1, s[g..])
  }

  predicate Closed(t: string) {
    |t| > 0 && t[|t| - 1] == '}'
  }

  /** A remainder; after an opening brace also one with a closing brace behind it. */
  predicate OpenTail(i: nat, t: string, braced: bool)
    requires i <= 5
  {
    Tail(i, t) || (braced && Closed(t) && Tail(i, t[..|t| - 1]))
  }

  lemma TailStep(i: nat, t: string, braced: bool)
    requires i < 5
    ensures var s, g := Undashed(i, t), GroupSize(i);
      OpenTail(i, t, braced) <==>
      (i > 0 ==> |t| > 0 && t[0] == '-') && |s| >= g && AllHex(s[..g]) && OpenTail(i + 1, s[g..], braced)
  {
    hide AllHex, GroupSize;
    var s, g := Undashed(i, t), GroupSize(i);
    if |s| > g {
      assert Closed(t) <==> Closed(s[g..]);
      var t', s' := t[..|t| - 1], s[..|s| - 1];
      assert Undashed(i, t') == s';
      assert s'[..g] == s[..g];
      assert s[g..][..|s[g..]| - 1] == s'[g..];
    } else if |t| > 0 {
      assert |Undashed(i, t[..|t| - 1])| < g || !Tail(i, t[..|t| - 1]);
    }
  }

  /** The groups from i on parse exactly if they are such a remainder. */
  lemma {:induction false} GroupsParsed(i: nat, t: string, braced: bool)
    requires i < 5
    ensures Groups(i, t, braced).0 == Parsed <==> OpenTail(i, t, braced)
    decreases 5 - i
  {
    hide Undashed, OpenTail, Tail, Unhex, AllHex, Closed, Groups;
    TailStep(i, t, braced);
    GroupEnds(i, t, braced);
    GroupPasses(i, t, braced, []);
    var s, g := Undashed(i, t), GroupSize(i);
    if |s| >= g {
      UnhexWhole(s[..g]);
      if i < 4 {
        GroupsParsed(i + 1, s[g..], braced);
      } else {
        LastGroup(s[g..], braced);
      }
    }
  }

  lemma LastGroup(t: string, braced: bool)
    ensures OpenTail(5, t, braced) <==> t == "" || (braced && t == "}")
    ensures Groups(5, t, braced) == (Parsed, [])
  {
  }

  /** Where group i starts, with the dash before it. */
  function Start(i: nat): nat
    requires i <= 5
  {
    if i == 0 then 0 else if i < 5 then 3 + 5 * i else 36
  }

  predicate Good(t: string, k: nat)
    requires k < |t|
  {
    if IsDash(k) then t[k] == '-' else IsHex(t[k])
  }

  lemma {:induction false} TailLength(i: nat, t: string)
    requires i <= 5 && Tail(i, t)
    ensures |t| == 36 - Start(i)
    decreases 5 - i
  {
    if i < 5 {
      TailLength(i + 1, Undashed(i, t)[GroupSize(i)..]);
    }
  }

  /** Group by group and place by place, well-formedness is the same. */
  lemma {:induction false} TailByPlace(i: nat, t: string)
    requires i <= 5 && |t| == 36
    ensures Tail(i, t[Start(i)..]) <==> forall k :: Start(i) <= k < 36 ==> Good(t, k)
    decreases 5 - i
  {
    if i == 5 {
      assert t[36..] == "";
    } else {
      hide *;
      var first := if i > 0 then Start(i) + 1 else 0;
      TailByPlace(i + 1, t);
      TailSplit(i, t, first);
      GroupByPlace(i, t, first);
      PlacesSplit(i, t);
    }
  }

  lemma TailSplit(i: nat, t: string, first: nat)
    requires i < 5 && |t| == 36 && first == (if i > 0 then Start(i) + 1 else 0)
    ensures Start(i) <= first <= Start(i + 1) <= 36
    ensures Tail(i, t[Start(i)..]) <==>
      (i > 0 ==> t[Start(i)] == '-') && AllHex(t[first..Start(i + 1)]) && Tail(i + 1, t[Start(i + 1)..])
  {
    hide AllHex;
    var r := t[Start(i)..];
    assert Undashed(i, r) == t[first..];
    assert t[first..][..GroupSize(i)] == t[first..Start(i + 1)];
    assert t[first..][GroupSize(i)..] == t[Start(i + 1)..];
  }

  lemma PlacesSplit(i: nat, t: string)
    requires i < 5 && |t| == 36
    ensures Start(i) <= Start(i + 1) <= 36
    ensures (forall k :: Start(i) <= k < 36 ==> Good(t, k)) <==>
            (forall k :: Start(i) <= k < Start(i + 1) ==> Good(t, k)) &&
            (forall k :: Start(i + 1) <= k < 36 ==> Good(t, k))
  {
    hide Good;
  }

  lemma GroupByPlace(i: nat, t: string, first: nat)
    requires i < 5 && |t| == 36 && first == (if i > 0 then Start(i) + 1 else 0)
    ensures first <= Start(i + 1) <= 36
    ensures ((i > 0 ==> t[Start(i)] == '-') && AllHex(t[first..Start(i + 1)])) <==>
            forall k :: Start(i) <= k < Start(i + 1) ==> Good(t, k)
  {
    assert IsDash(Start(i)) <==> 0 < i;
    assert forall k :: first <= k < Start(i + 1) ==> !IsDash(k);
    var s := t[first..Start(i + 1)];
    if AllHex(s) {
      assert forall k :: first <= k < Start(i + 1) ==> t[k] == s[k - first];
      assert forall k :: first <= k < Start(i + 1) ==> Good(t, k);
    }
    if forall k :: Start(i) <= k < Start(i + 1) ==> Good(t, k) {
      assert forall k :: 0 <= k < |s| ==> s[k] == t[first + k] && Good(t, first + k);
    }
    assert i > 0 ==> (Good(t, Start(i)) <==> t[Start(i)] == '-');
  }

  lemma {:induction false} UnhexAt(s: string, k: nat)
    requires k < |s| / 2 && AllHex(s)
    ensures |Unhex(s)| > k && Unhex(s)[k] == HexVal(s[2 * k]) * 16 + HexVal(s[2 * k + 1])
    decreases |s|
  {
    if k > 0 {
      assert forall j :: 0 <= j < |s| - 2 ==> s[2..][j] == s[j + 2];
      UnhexAt(s[2..], k - 1);
    }
  }

  /** The loop stores, from group i on, the bytes the text spells. */
  lemma {:induction false} GroupsStore(i: nat, t: string, r: string, braced: bool)
    requires i <= 5 && WellFormed(t) && |r| >= 36 && r[..36] == t
    requires Groups(i, r[Start(i)..], braced).0 == Parsed
    ensures Groups(i, r[Start(i)..], braced).1 == BytesOf(t)[Stored(i)..]
    decreases 5 - i
  {
    hide Unhex, HexVal, IsHex, BytesOf, Groups, WellFormed, Refusal;
    GroupEnds(i, r[Start(i)..], braced);
    if i < 5 {
      GroupPasses(i, r[Start(i)..], braced, []);
      GroupSlices(i, t, r);
      var first := if i > 0 then Start(i) + 1 else 0;
      GroupStores(i, t, first);
      GroupsStore(i + 1, t, r, braced);
      AppendSlices(BytesOf(t), Stored(i), Stored(i + 1));
    }
  }

  lemma AppendSlices(u: Bytes, a: nat, b: nat)
    requires a <= b <= |u|
    ensures [] + u[a..b] + u[b..] == u[a..]
  {
  }

  lemma GroupSlices(i: nat, t: string, r: string)
    requires i < 5 && |t| == 36 && |r| >= 36 && r[..36] == t
    ensures var s, g, first := Undashed(i, r[Start(i)..]), GroupSize(i), if i > 0 then Start(i) + 1 else 0;
      |s| >= g && first <= Start(i + 1) && s[..g] == t[first..Start(i + 1)] && s[g..] == r[Start(i + 1)..]
  {
    var first := if i > 0 then Start(i) + 1 else 0;
    assert Undashed(i, r[Start(i)..]) == r[first..];
  }

  lemma GroupStores(i: nat, t: string, first: nat)
    requires i < 5 && WellFormed(t) && first == (if i > 0 then Start(i) + 1 else 0)
    ensures first <= Start(i + 1) <= 36 && Stored(i) <= Stored(i + 1) <= 16
    ensures Unhex(t[first..Start(i + 1)]) == BytesOf(t)[Stored(i)..Stored(i + 1)]
  {
    hide Unhex, HexVal, IsHex;
    var s := t[first..Start(i + 1)];
    AllHexGroup(i, t, first);
    UnhexWhole(s);
    forall k | 0 <= k < |s| / 2
      ensures Unhex(s)[k] == BytesOf(t)[Stored(i) + k]
    {
      UnhexAt(s, k);
      assert Place(Stored(i) + k) == first + 2 * k;
    }
  }

  lemma AllHexGroup(i: nat, t: string, first: nat)
    requires i < 5 && WellFormed(t) && first == (if i > 0 then Start(i) + 1 else 0)
    ensures first <= Start(i + 1) <= 36 && Start(i + 1) - first == 2 * (Stored(i + 1) - Stored(i))
    ensures AllHex(t[first..Start(i + 1)])
  {
    forall k | first <= k < Start(i + 1)
      ensures IsHex(t[k])
    {
      assert !IsDash(k);
    }
  }

  /** The well-formed part of a text: without its prefix, and without the brace closing an
      opening one. */
  function Body(text: string): string
    requires |text| >= 32
  {
    var (t, braced) := Unprefixed(text);
    if braced && Closed(t) then t[..|t| - 1] else t
  }

  /** The spellings: plain, urn:uuid:, and in braces, of which the closing one is optional. */
  predicate Spelling(text: string) {
    WellFormed(text)
    || (|text| >= 9 && text[..9] == URN_PREFIX && WellFormed(text[9..]))
    || (|text| >= 1 && text[0] == '{' && WellFormed(text[1..]))
    || (|text| >= 2 && text[0] == '{' && text[|text| - 1] == '}' && WellFormed(text[1..|text| - 1]))
  }

  lemma SpellingBody(text: string)
    ensures Spelling(text) <==> |text| >= 32 && WellFormed(Body(text))
  {
    if |text| >= 32 {
      assert WellFormed(text) ==> Good(text, 0) && IsHex(text[0]);
      var (t, braced) := Unprefixed(text);
      assert t[|t| - 1] == text[|text| - 1];
      if braced {
        assert t == text[1..];
        assert text[1..|text| - 1] == t[..|t| - 1];
        assert text[..9][0] == '{';
        assert WellFormed(t) ==> Good(t, 35) && IsHex(t[35]);
      }
    }
  }

  /** The parser accepts exactly these spellings and stores the sixteen bytes they spell. */
  lemma ParsesExactly(text: string)
    ensures Unmarshal(text).0 == Parsed <==> Spelling(text)
    ensures Spelling(text) ==> |text| >= 32 && WellFormed(Body(text)) && Unmarshal(text).1 == BytesOf(Body(text))
  {
    SpellingBody(text);
    if |text| >= 32 {
      var (t, braced) := Unprefixed(text);
      GroupsParsed(0, t, braced);
      WellFormedTail(t);
      if Closed(t) {
        WellFormedTail(t[..|t| - 1]);
        ClosedIsNotWellFormed(t);
      }
      if WellFormed(Body(text)) {
        assert t[0..] == t;
        GroupsStore(0, Body(text), t, braced);
      }
    }
  }

  lemma ClosedIsNotWellFormed(t: string)
    requires Closed(t)
    ensures !WellFormed(t)
  {
    assert |t| == 36 ==> !Good(t, 35);
  }

  lemma WellFormedTail(t: string)
    ensures Tail(0, t) <==> WellFormed(t)
  {
    if Tail(0, t) {
      TailLength(0, t);
    }
    if |t| == 36 {
      assert t[0..] == t;
      TailByPlace(0, t);
      AllGood(t);
    }
  }

  lemma AllGood(t: string)
    requires |t| == 36
    ensures WellFormed(t) <==> forall k :: 0 <= k < 36 ==> Good(t, k)
  {
    hide IsHex, IsDash;
    if WellFormed(t) {
      forall k | 0 <= k < 36
        ensures Good(t, k)
      {
        assert t[k] == t[k];
      }
    }
    if forall k :: 0 <= k < 36 ==> Good(t, k) {
      forall k | 0 <= k < 36
        ensures if IsDash(k) then t[k] == '-' else IsHex(t[k])
      {
        assert Good(t, k);
      }
    }
  }

  // ----- round trips -------------------------------------------------------

  lemma TextChar(u: Bytes, k: nat)
    requires |u| == 16 && k < 36
    ensures ByteIndex(k) < 16
    ensures Text(u)[k] == if IsDash(k) then '-' else Digit(u[ByteIndex(k)], k == Place(ByteIndex(k)))
  {
  }

  lemma SpelledByte(t: string, i: nat)
    requires WellFormed(t) && i < 16
    ensures Place(i) + 1 < 36 && IsHex(t[Place(i)]) && IsHex(t[Place(i) + 1])
    ensures BytesOf(t)[i] == HexVal(t[Place(i)]) * 16 + HexVal(t[Place(i) + 1])
  {
    hide HexVal, IsHex;
    PlaceIndex(i);
  }

  /** Printing gives a well-formed text that spells the bytes printed. */
  lemma TextSpells(u: Bytes)
    requires |u| == 16
    ensures WellFormed(Text(u)) && BytesOf(Text(u)) == u
  {
    hide Text, Digit, BytesOf, ByteIndex, Place, HexVal, IsHex, IsDash;
    forall k | 0 <= k < 36
      ensures if IsDash(k) then Text(u)[k] == '-' else IsHex(Text(u)[k])
    {
      TextChar(u, k);
      DigitVal(u[ByteIndex(k)], k == Place(ByteIndex(k)));
    }
    forall i | 0 <= i < 16
      ensures BytesOf(Text(u))[i] == u[i]
    {
      SpelledByte(Text(u), i);
      PlaceIndex(i);
      TextChar(u, Place(i));
      TextChar(u, Place(i) + 1);
      DigitVal(u[i], true);
      DigitVal(u[i], false);
    }
  }

  lemma DigitVal(b: Byte, high: bool)
    ensures IsHex(Digit(b, high)) && HexVal(Digit(b, high)) == if high then b / 16 else b % 16
  {
  }

  lemma PlaceIndex(i: nat)
    requires i < 16
    ensures Place(i) + 1 < 36 && !IsDash(Place(i)) && !IsDash(Place(i) + 1)
    ensures ByteIndex(Place(i)) == i && ByteIndex(Place(i) + 1) == i
  {
  }

  /** Parsing recovers the UUID from its text, from the braced form and from the URN form. */
  lemma TextRoundTrip(u: Bytes)
    requires |u| == 16
    ensures Unmarshal(Text(u)) == (Parsed, u)
    ensures Unmarshal("{" + Text(u) + "}") == (Parsed, u)
    ensures Unmarshal(URN_PREFIX + Text(u)) == (Parsed, u)
  {
    hide Text, Unmarshal, BytesOf;
    TextSpells(u);
    var t := Text(u);
    assert ("{" + t + "}")[1..37] == t;
    assert (URN_PREFIX + t)[9..] == t;
    ParsesExactly(t);
    ParsesExactly("{" + t + "}");
    ParsesExactly(URN_PREFIX + t);
    BodyOfSpellings(t);
  }

  lemma BodyOfSpellings(t: string)
    requires WellFormed(t)
    ensures Body(t) == t && Body("{" + t + "}") == t && Body(URN_PREFIX + t) == t
  {
    assert Good(t, 0) && IsHex(t[0]);
    assert (URN_PREFIX + t)[..9] == URN_PREFIX;
    assert (URN_PREFIX + t)[9..] == t;
    var b := "{" + t + "}";
    assert b[1..][..36] == t;
    assert t[..9][0] == t[0] && b[..9][0] == '{';
  }

  lemma HexPair(c: char, d: char)
    requires IsHex(c) && IsHex(d)
    ensures var b := HexVal(c) * 16 + HexVal(d); HexChar(b / 16) == Lower(c) && HexChar(b % 16) == Lower(d)
  {
    assert HexChar(HexVal(c)) == Lower(c);
    assert HexChar(HexVal(d)) == Lower(d);
  }

  /** Whatever the case of its letters, a well-formed text prints back in lower case. */
  lemma ParseThenPrint(t: string)
    requires WellFormed(t)
    ensures Unmarshal(t).0 == Parsed && |Unmarshal(t).1| == 16
    ensures forall k :: 0 <= k < 36 ==> Text(Unmarshal(t).1)[k] == Lower(t[k])
  {
    hide Unmarshal, BytesOf, Text, WellFormed;
    ParsesExactly(t);
    BodyOfSpellings(t);
    forall k | 0 <= k < 36
      ensures Text(BytesOf(t))[k] == Lower(t[k])
    {
      PrintsLower(t, k);
    }
  }

  lemma PrintsLower(t: string, k: nat)
    requires WellFormed(t) && k < 36
    ensures Text(BytesOf(t))[k] == Lower(t[k])
  {
    hide Text, BytesOf, ByteIndex, Place, HexVal, HexChar, IsHex;
    TextChar(BytesOf(t), k);
    if IsDash(k) {
      assert t[k] == '-';
    } else {
      var i := ByteIndex(k);
      PlaceEither(k);
      SpelledByte(t, i);
      HexPair(t[Place(i)], t[Place(i) + 1]);
    }
  }

  lemma PlaceEither(k: nat)
    requires k < 36 && !IsDash(k)
    ensures ByteIndex(k) < 16 && (k == Place(ByteIndex(k)) || k == Place(ByteIndex(k)) + 1)
  {
  }

  // ----- the unguarded index -----------------------------------------------

  /** A remainder cut off right before a dash. */
  predicate Cut(i: nat, t: string)
    requires i <= 5
    decreases 5 - i
  {
    if i == 5 then false
    else if i > 0 && t == "" then true
    else
      (i > 0 ==> t[0] == '-') &&
      var s, g := Undashed(i, t), GroupSize(i);
      |s| >= g && AllHex(s[..g]) && Cut(i + 1, s[g..])
  }

  lemma {:induction false} GroupsPanic(i: nat, t: string, braced: bool)
    requires i <= 5
    ensures Groups(i, t, braced).0 == Panicked <==> Cut(i, t)
    decreases 5 - i
  {
    if i < 5 && (i > 0 ==> |t| > 0 && t[0] == '-') {
      var s, g := Undashed(i, t), GroupSize(i);
      if |s| >= g {
        UnhexWhole(s[..g]);
        GroupsPanic(i + 1, s[g..], braced);
      }
    }
  }

  lemma {:induction false} CutIsShort(i: nat, t: string)
    requires i <= 5 && Cut(i, t)
    ensures i < 5 && |t| <= 23 - Start(i)
    decreases 5 - i
  {
    if i < 5 && !(i > 0 && t == "") {
      CutIsShort(i + 1, Undashed(i, t)[GroupSize(i)..]);
    }
  }

  const LAST_GROUP := "-000000000000"

  lemma {:induction false} CutMissesLastGroup(i: nat, t: string)
    requires i <= 4 && |t| == 23 - Start(i)
    ensures Cut(i, t) <==> Tail(i, t + LAST_GROUP)
    decreases 5 - i
  {
    hide AllHex;
    var s, g, all := Undashed(i, t), GroupSize(i), t + LAST_GROUP;
    if i == 4 {
      assert t == "" && all == LAST_GROUP;
      ZerosAreHex();
    } else {
      assert Undashed(i, all) == s + LAST_GROUP;
      assert (s + LAST_GROUP)[..g] == s[..g];
      assert (s + LAST_GROUP)[g..] == s[g..] + LAST_GROUP;
      CutMissesLastGroup(i + 1, s[g..]);
    }
  }

  lemma ZerosAreHex()
    ensures AllHex(LAST_GROUP[1..][..12]) && LAST_GROUP[1..][12..] == ""
  {
  }

  /** Exactly the URN form that stops before its last group makes the parser index past the
      end of its input. */
  lemma PanicsExactly(text: string)
    ensures Unmarshal(text).0 == Panicked <==>
            |text| == 32 && text[..9] == URN_PREFIX && WellFormed(text[9..] + LAST_GROUP)
  {
    if |text| >= 32 {
      var (t, braced) := Unprefixed(text);
      GroupsPanic(0, t, braced);
      if Cut(0, t) {
        CutIsShort(0, t);
      }
      if |t| == 23 {
        CutMissesLastGroup(0, t);
      }
      WellFormedTail(t + LAST_GROUP);
    }
  }

  /** Such an input. */
  lemma PanicInput()
    ensures Unmarshal("urn:uuid:00000000-0000-0000-0000").0 == Panicked
  {
    hide Unmarshal, WellFormed;
    var text, rest := "urn:uuid:00000000-0000-0000-0000", "00000000-0000-0000-0000";
    assert text == URN_PREFIX + rest;
    assert text[..9] == URN_PREFIX && text[9..] == rest;
    NilText();
    assert rest + LAST_GROUP == NIL_TEXT;
    PanicsExactly(text);
  }

  const NIL_TEXT := "00000000-0000-0000-0000-000000000000"

  lemma NilText()
    ensures WellFormed(NIL_TEXT)
  {
    forall k | 0 <= k < 36
      ensures if IsDash(k) then NIL_TEXT[k] == '-' else NIL_TEXT[k] == '0'
    {
    }
  }

  /** A brace that is never closed is accepted. */
  lemma OpenBraceParses(u: Bytes)
    requires |u| == 16
    ensures Unmarshal("{" + Text(u)) == (Parsed, u)
  {
    hide Text, Unmarshal, BytesOf;
    TextSpells(u);
    var t := Text(u);
    var b := "{" + t;
    assert b[1..] == t && b[0] == '{' && b[..9][0] == '{';
    assert URN_PREFIX[0] == 'u';
    assert Good(t, 35) && IsHex(t[35]);
    ParsesExactly(b);
  }
}
