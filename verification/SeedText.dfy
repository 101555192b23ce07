/** The text of a Runtime host seed: how 16 random bytes are rendered, and which file contents are accepted. */
module SeedText {
  import opened Wrappers
  import opened Text

  type Octets = s: seq<bv8> | |s| == 16 witness seq(16, _ => 0)

  const HEX := "0123456789abcdef"

  function HexByte(b: bv8): string {
    [HEX[(b >> 4) as int], HEX[(b & 0x0f) as int]]
  }

  /** Two-character digit groups, and their concatenation. */
  type Pairs = p: seq<string> | forall i | 0 <= i < |p| :: |p[i]| == 2 witness []

  function Joined(p: Pairs): (s: string)
    ensures |s| == 2 * |p|
    ensures forall i | 0 <= i < |p| :: s[2 * i] == p[i][0] && s[2 * i + 1] == p[i][1]
  {
    if p == [] then "" else Joined(p[..|p| - 1]) + p[|p| - 1]
  }

  function HexPairs(b: Octets): (p: Pairs)
    ensures |p| == 16
  {
    seq(16, i requires 0 <= i < 16 => HexByte(b[i]))
  }

  /** The version 4 and variant bits of section 4.4 of RFC 4122. */
  function Stamped(b: Octets): Octets {
    b[6 := (b[6] & 0x0f) | 0x40][8 := (b[8] & 0x3f) | 0x80]
  }

  /** Where the five groups of a UUID start, and where the last one ends. */
  function GroupStart(g: nat): (i: nat)
    requires g <= 5
    ensures i <= 16
  {
    if g == 0 then 0 else if g == 1 then 4 else if g == 2 then 6 else if g == 3 then 8 else if g == 4 then 10 else 16
  }

  /** The digit pairs of group `g`. */
  function Group(p: Pairs, g: nat): (q: Pairs)
    requires |p| == 16 && g < 5
    ensures |q| == GroupStart(g + 1) - GroupStart(g)
  {
    var start := GroupStart(g);
    var q := p[start..GroupStart(g + 1)];
    assert forall i | 0 <= i < |q| :: q[i] == p[start + i];
    q
  }

  /** The text from group `g` on: the groups in hexadecimal, joined by dashes. */
  function GroupsFrom(p: Pairs, g: nat): string
    requires |p| == 16 && g < 5
    decreases 5 - g
  {
    var group := Joined(Group(p, g));
    if g == 4 then group else group + "-" + GroupsFrom(p, g + 1)
  }

  function UuidText(b: Octets): string {
    GroupsFrom(HexPairs(b), 0)
  }

  function Render(random: Octets): string {
    UuidText(Stamped(random))
  }

  /** The position of byte `i` in the text: two digits a byte, and a dash after bytes 4, 6, 8 and 10. */
  function Position(i: nat): nat {
    2 * i + if i < 4 then 0 else if i < 6 then 1 else if i < 8 then 2 else if i < 10 then 3 else 4
  }

  predicate IsHexDigit(c: char) {
    '0' <= c <= '9' || 'a' <= c <= 'f'
  }

  predicate IsDash(k: nat) {
    k == 8 || k == 13 || k == 18 || k == 23
  }

  /** A version 4 UUID as text: section 3 of RFC 4122 for the layout, section 4.4 for the fixed bits. */
  predicate IsUuidV4(s: string) {
    && |s| == 36
    && (forall i | 0 <= i < 36 :: if IsDash(i) then s[i] == '-' else IsHexDigit(s[i]))
    && s[14] == '4'
    && s[19] in {'8', '9', 'a', 'b'}
  }

  lemma HexDigitShape(n: bv8)
    requires n < 16
    ensures IsHexDigit(HEX[n as int])
  {
  }

  lemma HexDigitInjective(m: bv8, n: bv8)
    requires m < 16 && n < 16 && HEX[m as int] == HEX[n as int]
    ensures m == n
  {
    assert m as int == n as int;
  }

  lemma HexByteInjective(a: bv8, b: bv8)
    requires HexByte(a) == HexByte(b)
    ensures a == b
  {
    assert HexByte(a)[0] == HexByte(b)[0] && HexByte(a)[1] == HexByte(b)[1];
    HexDigitInjective(a >> 4, b >> 4);
    HexDigitInjective(a & 0x0f, b & 0x0f);
  }

  /** The text from group `g` on has no more than its digits and dashes. */
  lemma {:induction false} GroupsLength(p: Pairs, g: nat)
    requires |p| == 16 && g < 5
    ensures |GroupsFrom(p, g)| == 36 - Position(GroupStart(g))
    decreases 5 - g
  {
    if g < 4 {
      GroupsLength(p, g + 1);
    }
  }

  predicate EndsWith(s: string, k: int, tail: string) {
    0 <= k <= |s| && s[k..] == tail
  }

  /** A dash stands right before position `k`. */
  predicate DashBefore(s: string, k: int) {
    0 < k <= |s| && s[k - 1] == '-'
  }

  /** The text ends with its groups from `g` on, with a dash before them unless they are all. */
  lemma {:induction false} GroupsTail(p: Pairs, g: nat)
    requires |p| == 16 && g < 5
    ensures EndsWith(GroupsFrom(p, 0), Position(GroupStart(g)), GroupsFrom(p, g))
    ensures g > 0 ==> DashBefore(GroupsFrom(p, 0), Position(GroupStart(g)))
  {
    if g == 0 {
      assert Position(GroupStart(0)) == 0;
    } else {
      hide *;
      GroupsTail(p, g - 1);
      GroupsStep(p, g, GroupsFrom(p, 0));
    }
  }

  lemma GroupsStep(p: Pairs, g: nat, s: string)
    requires |p| == 16 && 0 < g < 5 && EndsWith(s, Position(GroupStart(g - 1)), GroupsFrom(p, g - 1))
    ensures EndsWith(s, Position(GroupStart(g)), GroupsFrom(p, g)) && DashBefore(s, Position(GroupStart(g)))
  {
    var group := Joined(Group(p, g - 1));
    assert GroupsFrom(p, g - 1) == group + "-" + GroupsFrom(p, g);
    assert Position(GroupStart(g - 1)) + |group| + 1 == Position(GroupStart(g));
    hide *;
    SliceShift(s, Position(GroupStart(g - 1)), group, GroupsFrom(p, g));
  }

  lemma SliceShift(s: string, o: nat, head: string, tail: string)
    requires EndsWith(s, o, head + "-" + tail)
    ensures EndsWith(s, o + |head| + 1, tail) && DashBefore(s, o + |head| + 1)
  {
    assert s[o + |head|] == s[o..][|head|];
    assert s[o + |head| + 1..] == s[o..][|head| + 1..];
  }

  /** Byte `i` is one of group `g`. */
  lemma GroupAt(p: Pairs, g: nat, i: nat)
    requires |p| == 16 && g < 5 && GroupStart(g) <= i < GroupStart(g + 1)
    ensures var j := 2 * (i - GroupStart(g));
            j + 1 < |GroupsFrom(p, g)| && GroupsFrom(p, g)[j] == p[i][0] && GroupsFrom(p, g)[j + 1] == p[i][1]
  {
    var group := p[GroupStart(g)..GroupStart(g + 1)];
    assert group[i - GroupStart(g)] == p[i];
  }

  function GroupOf(i: nat): (g: nat)
    requires i < 16
    ensures g < 5 && GroupStart(g) <= i < GroupStart(g + 1)
    ensures Position(i) == Position(GroupStart(g)) + 2 * (i - GroupStart(g))
  {
    if i < 4 then 0 else if i < 6 then 1 else if i < 8 then 2 else if i < 10 then 3 else 4
  }

  /** Each byte is found at its position in the text. */
  lemma TextAt(p: Pairs, i: nat)
    requires |p| == 16 && i < 16
    ensures |GroupsFrom(p, 0)| == 36 && Position(i) < 35
    ensures GroupsFrom(p, 0)[Position(i)] == p[i][0] && GroupsFrom(p, 0)[Position(i) + 1] == p[i][1]
  {
    hide Joined, GroupsFrom;
    var g := GroupOf(i);
    var s, o, j := GroupsFrom(p, 0), Position(GroupStart(g)), 2 * (i - GroupStart(g));
    GroupsLength(p, 0);
    GroupsTail(p, g);
    GroupAt(p, g, i);
    assert s[o..][j] == s[o + j] && s[o..][j + 1] == s[o + j + 1];
  }

  /** Every position that is not a dash is a digit of some byte. */
  lemma PositionCovers(k: nat) returns (i: nat)
    requires k < 36 && !IsDash(k)
    ensures i < 16 && (k == Position(i) || k == Position(i) + 1)
  {
    i := if k < 8 then k / 2 else if k < 13 then (k - 1) / 2 else if k < 18 then (k - 2) / 2
        else if k < 23 then (k - 3) / 2 else (k - 4) / 2;
  }

  lemma DashesStand(p: Pairs)
    requires |p| == 16
    ensures |GroupsFrom(p, 0)| == 36
    ensures forall k | 0 <= k < 36 && IsDash(k) :: GroupsFrom(p, 0)[k] == '-'
  {
    GroupsLength(p, 0);
    hide Joined, GroupsFrom;
    GroupsTail(p, 1);
    GroupsTail(p, 2);
    GroupsTail(p, 3);
    GroupsTail(p, 4);
  }

  /** Every rendering is a version 4 UUID. */
  lemma RenderIsUuidV4(random: Octets)
    ensures IsUuidV4(Render(random))
  {
    var b, s := Stamped(random), Render(random);
    var p := HexPairs(b);
    DashesStand(p);
    forall k | 0 <= k < 36 && !IsDash(k)
      ensures IsHexDigit(s[k])
    {
      var i := PositionCovers(k);
      TextAt(p, i);
      HexByteShape(b[i]);
    }
    FixedDigits(random);
    TextAt(p, 6);
    TextAt(p, 8);
    assert Position(6) == 14 && Position(8) == 19;
  }

  lemma HexByteShape(b: bv8)
    ensures IsHexDigit(HexByte(b)[0]) && IsHexDigit(HexByte(b)[1])
  {
    HexDigitShape(b >> 4);
    HexDigitShape(b & 0x0f);
  }

  lemma FixedDigits(random: Octets)
    ensures HexByte(Stamped(random)[6])[0] == '4'
    ensures HexByte(Stamped(random)[8])[0] in {'8', '9', 'a', 'b'}
  {
    var six, eight := Stamped(random)[6], Stamped(random)[8];
    assert six >> 4 == 4;
    var n := eight >> 4;
    assert n == 8 || n == 9 || n == 10 || n == 11;
  }

  predicate AgreeAt(i: nat, x: bv8, y: bv8) {
    if i == 6 then x & 0x0f == y & 0x0f else if i == 8 then x & 0x3f == y & 0x3f else x == y
  }

  /** The 122 bits a seed keeps of its 16 random bytes. */
  predicate AgreeOffFixedBits(a: Octets, b: Octets) {
    forall i | 0 <= i < 16 :: AgreeAt(i, a[i], b[i])
  }

  /** Stamping a byte forgets the fixed bits of its position and nothing else. */
  lemma StampedAt(a: Octets, b: Octets, i: nat)
    requires i < 16
    ensures Stamped(a)[i] == Stamped(b)[i] <==> AgreeAt(i, a[i], b[i])
  {
    StampKeeps(a[i], b[i]);
  }

  lemma StampKeeps(a: bv8, b: bv8)
    ensures (a & 0x0f) | 0x40 == (b & 0x0f) | 0x40 <==> a & 0x0f == b & 0x0f
    ensures (a & 0x3f) | 0x80 == (b & 0x3f) | 0x80 <==> a & 0x3f == b & 0x3f
  {
  }

  lemma StampedEqual(a: Octets, b: Octets)
    ensures Stamped(a) == Stamped(b) <==> AgreeOffFixedBits(a, b)
  {
    forall i | 0 <= i < 16
      ensures Stamped(a)[i] == Stamped(b)[i] <==> AgreeAt(i, a[i], b[i])
    {
      StampedAt(a, b, i);
    }
    hide AgreeAt, Stamped;
    assert Stamped(a) == Stamped(b) <==> forall i | 0 <= i < 16 :: Stamped(a)[i] == Stamped(b)[i];
  }

  lemma UuidTextInjective(x: Octets, y: Octets)
    requires UuidText(x) == UuidText(y)
    ensures x == y
  {
    forall i | 0 <= i < 16
      ensures x[i] == y[i]
    {
      SameDigits(x, y, i);
    }
  }

  lemma SameDigits(x: Octets, y: Octets, i: nat)
    requires UuidText(x) == UuidText(y) && i < 16
    ensures x[i] == y[i]
  {
    TextAt(HexPairs(x), i);
    TextAt(HexPairs(y), i);
    assert HexPairs(x)[i] == HexByte(x[i]) && HexPairs(y)[i] == HexByte(y[i]);
    hide GroupsFrom, UuidText, HexPairs, Joined;
    HexByteInjective(x[i], y[i]);
  }

  /** Two inputs render equally exactly when they agree off the six fixed bits. */
  lemma RenderCollides(a: Octets, b: Octets)
    ensures Render(a) == Render(b) <==> AgreeOffFixedBits(a, b)
  {
    hide UuidText, Stamped, AgreeOffFixedBits;
    StampedEqual(a, b);
    if Render(a) == Render(b) {
      UuidTextInjective(Stamped(a), Stamped(b));
    }
  }

  /** The id rule shared with the Room: 8 to 64 characters of an opaque charset. */
  predicate ValidRuntimeHostId(id: string) {
    && 8 <= |id| <= 64
    && forall c | c in id :: IsIdChar(c)
  }

  /** What reading a seed file with this content returns. */
  function ReadSeed(content: string): Option<string> {
    var seed := TrimSpace(content);
    if ValidRuntimeHostId(seed) then Some(seed) else None
  }

  predicate IsIdChar(c: char) {
    'a' <= c <= 'z' || 'A' <= c <= 'Z' || '0' <= c <= '9' || c in "-_.:"
  }

  /** Text that starts and ends with characters of the id charset has no white space at either end. */
  lemma NoSpaceAround(s: string)
    requires |s| >= 3 && IsIdChar(s[0]) && IsIdChar(s[1]) && IsIdChar(s[|s| - 1])
    ensures LeadingSpace(s) == 0 && TrailingSpace(s) == 0
  {
  }

  /** One line feed behind such text is all that is trimmed. */
  lemma LineFeedIsTrimmed(s: string)
    requires |s| >= 3 && IsIdChar(s[0]) && IsIdChar(s[1]) && IsIdChar(s[|s| - 1])
    ensures TrimSpace(s + "\n") == s
  {
    var line := s + "\n";
    NoSpaceAround(s);
    assert line[0] == s[0] && line[1] == s[1];
    assert LeadingSpace(line) == 0 && TrailingSpace(line) == 1;
    hide LeadingSpace, TrailingSpace;
    assert line[..|line| - 1] == s;
    assert TrimRight(line) == TrimRight(s);
  }

  /** Text of the id charset has no white space at either end. */
  lemma ValidHasNoSpace(id: string)
    requires ValidRuntimeHostId(id)
    ensures LeadingSpace(id) == 0 && TrailingSpace(id) == 0
    ensures TrimSpace(id) == id && TrimSpace(id + "\n") == id
  {
    assert id[0] in id && id[1] in id && id[|id| - 1] in id;
    NoSpaceAround(id);
    LineFeedIsTrimmed(id);
  }

  lemma UuidIsValidHostId(s: string)
    requires IsUuidV4(s)
    ensures ValidRuntimeHostId(s)
  {
    forall c | c in s
      ensures IsHexDigit(c) || c == '-'
    {
      var i :| 0 <= i < |s| && s[i] == c;
    }
  }

  const MARKS := "-_.:"

  /** The charset, written out. */
  predicate IsListed(c: char) {
    c in UPPER || c in LOWER || c in DECIMALS || c in MARKS
  }

  lemma IdCharIff(c: char)
    ensures IsIdChar(c) <==> IsListed(c)
  {
    AlphabetsAreConsecutive();
    hide UPPER, LOWER, DECIMALS;
    ConsecutiveIff(UPPER, c);
    ConsecutiveIff(LOWER, c);
    ConsecutiveIff(DECIMALS, c);
  }

  /** What is read as a seed is 8 to 64 characters of the charset. */
  lemma ReadSeedIsId(content: string, i: nat)
    requires ReadSeed(content).Some? && i < |ReadSeed(content).value|
    ensures 8 <= |ReadSeed(content).value| <= 64 && IsListed(ReadSeed(content).value[i])
  {
    var seed := ReadSeed(content).value;
    assert seed[i] in seed;
    hide TrimSpace, IsIdChar, IsListed;
    IdCharIff(seed[i]);
  }

  /** And every such text is read as a seed, with or without a line feed. */
  lemma IdIsRead(id: string)
    requires 8 <= |id| <= 64 && forall c | c in id :: IsListed(c)
    ensures ReadSeed(id) == Some(id) && ReadSeed(id + "\n") == Some(id)
  {
    hide IsIdChar, IsListed, TrimSpace;
    forall c | c in id
      ensures IsIdChar(c)
    {
      IdCharIff(c);
    }
    ValidHasNoSpace(id);
  }

  /** Where the first digit of every byte stands. */
  function DigitsAt(i: nat): (k: nat)
    requires i < 16
    ensures k <= 34
  {
    [0, 2, 4, 6, 9, 11, 14, 16, 19, 21, 24, 26, 28, 30, 32, 34][i]
  }

  function HexValue(c: char): nat {
    if '0' <= c <= '9' then c as int - '0' as int
    else if 'a' <= c <= 'f' then c as int - 'a' as int + 10
    else 16
  }

  /** The digits of a seed are the values of the random bytes in their order, but for the six fixed bits. */
  lemma RenderDigits(random: Octets, i: nat)
    requires i < 16
    ensures |Render(random)| == 36
    ensures var value := 16 * HexValue(Render(random)[DigitsAt(i)]) + HexValue(Render(random)[DigitsAt(i) + 1]);
            value == if i == 6 then 64 + random[i] as int % 16
                     else if i == 8 then 128 + random[i] as int % 64
                     else random[i] as int
  {
    var b := Stamped(random);
    assert DigitsAt(i) == Position(i);
    TextAt(HexPairs(b), i);
    HexByteValue(b[i]);
    StampValue(random[i]);
  }

  lemma HexDigitValue(n: bv8)
    requires n < 16
    ensures HexValue(HEX[n as int]) == n as int
  {
  }

  lemma HexByteValue(b: bv8)
    ensures 16 * HexValue(HexByte(b)[0]) + HexValue(HexByte(b)[1]) == b as int
  {
    HexDigitValue(b >> 4);
    HexDigitValue(b & 0x0f);
    NibbleValues(b);
  }

  lemma NibbleValues(b: bv8)
    ensures (b >> 4) as int == b as int / 16 && (b & 0x0f) as int == b as int % 16
  {
    assert b >> 4 == b / 16 && b & 0x0f == b % 16;
  }

  lemma StampValue(b: bv8)
    ensures ((b & 0x0f) | 0x40) as int == 64 + b as int % 16
    ensures ((b & 0x3f) | 0x80) as int == 128 + b as int % 64
  {
    assert (b & 0x0f) | 0x40 == 64 + b % 16;
    assert (b & 0x3f) | 0x80 == 128 + b % 64;
  }

  /** The published file of a fresh seed reads back as exactly that seed. */
  lemma PublishedSeedReadsBack(random: Octets)
    ensures ReadSeed(Render(random) + "\n") == Some(Render(random))
  {
    RenderIsUuidV4(random);
    UuidIsValidHostId(Render(random));
    ValidHasNoSpace(Render(random));
  }

  /**
   A reader that saw a partly written seed would accept it: every prefix of 8 or more characters
   passes validation. Hence a seed must be published in one step.
   */
  lemma TornSeedWouldBeAccepted(random: Octets, n: nat)
    requires 8 <= n <= 36
    ensures ReadSeed(Render(random)[..n]) == Some(Render(random)[..n])
  {
    RenderIsUuidV4(random);
    UuidIsValidHostId(Render(random));
    assert forall c | c in Render(random)[..n] :: c in Render(random);
    ValidHasNoSpace(Render(random)[..n]);
  }

  /** The seed generator stamps the random bytes in place and renders them. */
  method NewHostSeed(b: array<bv8>) returns (seed: string)
    requires b.Length == 16
    modifies b
    ensures b[..] == Stamped(old(b[..]))
    ensures seed == Render(old(b[..]))
  {
    b[6] := (b[6] & 0x0f) | 0x40;
    b[8] := (b[8] & 0x3f) | 0x80;
    assert b[..] == Stamped(old(b[..]));
    seed := UuidText(b[..]);
  }
}
