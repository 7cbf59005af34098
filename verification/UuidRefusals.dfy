/** How the UUID parser ends on every text, by the first group at fault and where it stands. */
module UuidRefusals {
  import opened Uuid
  import opened UuidText

  /** Where the digits of group i begin, its dash being before them. */
  function First(i: nat): nat
    requires i < 5
  {
    if i > 0 then Start(i) + 1 else 0
  }

  /** What is wrong with group i, at its place in the text; Parsed for nothing. */
  function Fault(t: string, braced: bool, i: nat): (r: Outcome)
    requires i < 5 && Start(i) <= |t|
    ensures r == Parsed ==> Start(i + 1) <= |t|
  {
    if i > 0 && |t| == Start(i) then Panicked
    else if i > 0 && t[Start(i)] != '-' then BadFormat
    else if |t| < Start(i + 1) then TooShort
    else if i == 4 && |t| > 36 && !(braced && |t| == 37 && t[36] == '}') then TooLong
    else if exists k :: First(i) <= k < Start(i + 1) && !IsHex(t[k]) then BadHex
    else Parsed
  }

  lemma RefusalAtPlace(t: string, braced: bool, i: nat)
    requires i < 5 && Start(i) <= |t|
    ensures var r := t[Start(i)..];
      Refusal(i, r, braced) == (if Fault(t, braced, i) == BadHex then Parsed else Fault(t, braced, i))
    ensures var r := t[Start(i)..];
      Refusal(i, r, braced) == Parsed ==>
        && Start(i + 1) <= |t| && |Undashed(i, r)| >= GroupSize(i)
        && Undashed(i, r)[..GroupSize(i)] == t[First(i)..Start(i + 1)]
        && Undashed(i, r)[GroupSize(i)..] == t[Start(i + 1)..]
  {
    var r := t[Start(i)..];
    if |t| > Start(i) || i == 0 {
      assert Undashed(i, r) == t[First(i)..];
      assert Start(i + 1) == First(i) + GroupSize(i);
    }
  }

  /** A group at fault ends the loop; after any other the next group is looked at. */
  lemma GroupAtPlace(t: string, braced: bool, i: nat)
    requires i < 5 && Start(i) <= |t|
    ensures var f := Fault(t, braced, i);
      Groups(i, t[Start(i)..], braced).0 == if f == Parsed then Groups(i + 1, t[Start(i + 1)..], braced).0 else f
  {
    hide Refusal, Groups, Unhex, Undashed, IsHex;
    var r := t[Start(i)..];
    RefusalAtPlace(t, braced, i);
    GroupEnds(i, r, braced);
    GroupPasses(i, r, braced, []);
    if Refusal(i, r, braced) == Parsed {
      var s := t[First(i)..Start(i + 1)];
      UnhexWhole(s);
      HexByPlace(t, First(i), Start(i + 1));
    }
  }

  lemma HexByPlace(t: string, lo: nat, hi: nat)
    requires lo <= hi <= |t|
    ensures AllHex(t[lo..hi]) <==> forall k :: lo <= k < hi ==> IsHex(t[k])
  {
    hide IsHex;
    if AllHex(t[lo..hi]) {
      forall k | lo <= k < hi ensures IsHex(t[k]) {
        assert t[lo..hi][k - lo] == t[k];
      }
    }
  }

  lemma {:induction false} FirstFrom(t: string, braced: bool, i: nat) returns (j: nat)
    requires i <= 5 && Start(i) <= |t|
    ensures i <= j <= 5 && Start(j) <= |t|
    ensures forall k: nat :: i <= k < j ==> Start(k) <= |t| && Fault(t, braced, k) == Parsed
    ensures Groups(i, t[Start(i)..], braced).0 == if j < 5 then Fault(t, braced, j) else Parsed
    ensures j < 5 ==> Fault(t, braced, j) != Parsed
    decreases 5 - i
  {
    hide Fault, Groups;
    j := i;
    if i < 5 {
      GroupAtPlace(t, braced, i);
      if Fault(t, braced, i) == Parsed {
        j := FirstFrom(t, braced, i + 1);
      }
    } else {
      LastGroup(t[Start(5)..], braced);
    }
  }

  /** The parser ends as the first group at fault says: short texts are too short; else a group
      can be missing its dash, too short, too long or not hexadecimal, in this order. */
  lemma EndsAtFirstFault(text: string) returns (j: nat)
    ensures |text| < 32 ==> Unmarshal(text).0 == TooShort
    ensures |text| >= 32 ==> var (t, braced) := Unprefixed(text);
      && j <= 5 && Start(j) <= |t|
      && (forall k: nat :: k < j ==> Start(k) <= |t| && Fault(t, braced, k) == Parsed)
      && (j < 5 ==> Fault(t, braced, j) != Parsed)
      && Unmarshal(text).0 == if j < 5 then Fault(t, braced, j) else Parsed
  {
    hide Fault, Groups;
    j := 0;
    if |text| >= 32 {
      var (t, braced) := Unprefixed(text);
      assert t[Start(0)..] == t;
      j := FirstFrom(t, braced, 0);
    }
  }
}
