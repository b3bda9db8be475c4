// The text in which ANALYZE stores its numbers, and how it is read back: what
// stat_get() writes, decodeIntArray() reads.
module StatText {
  import opened Chars
  import opened Division

  const TWO64: nat := 0x1_0000_0000_0000_0000

  predicate IsDigit(c: char) {
    '0' <= c <= '9'
  }

  function DigitChar(d: nat): (c: char)
    requires d < 10
    ensures IsDigit(c) && (c - '0') as nat == d
  {
    '0' + d as char
  }

  // "%llu"
  function Digits(n: nat): (z: string)
    ensures z != ""
  {
    if n < 10 then [DigitChar(n)] else Digits(n / 10) + [DigitChar(n % 10)]
  }

  // The numbers, separated by single spaces.
  function Joined(nums: seq<nat>): string {
    if nums == [] then ""
    else if |nums| == 1 then Digits(nums[0])
    else Digits(nums[0]) + " " + Joined(nums[1..])
  }

  lemma {:induction false} JoinedNext(nums: seq<nat>, n: nat)
    ensures Joined(nums + [n]) == if nums == [] then Digits(n) else Joined(nums) + " " + Digits(n)
  {
    if nums != [] {
      var rest := nums[1..];
      JoinedNext(rest, n);
      assert (nums + [n])[1..] == rest + [n];
      if rest != [] {
        Associates(Digits(nums[0]), " ", Joined(rest), " ", Digits(n));
      }
    }
  }

  lemma Associates(a: string, b: string, c: string, d: string, e: string)
    ensures (a + b + c) + d + e == a + b + (c + d + e)
  {
  }

  // ---- reading ---------------------------------------------------------------------

  // The digits in front of a text, taken as a tRowcnt, and the rest.  A tRowcnt is
  // a 32-bit integer unless the build asks for 64 bits.
  function ReadNumber(z: string, v: nat): (nat, string) {
    if z != "" && IsDigit(z[0]) then ReadNumber(z[1..], AsU32(10 * v + (z[0] - '0') as nat)) else (v, z)
  }

  function SkipSpace(z: string): string {
    if z != "" && z[0] == ' ' then z[1..] else z
  }

  // decodeIntArray(): at most nOut numbers, and the text behind them.
  function Decode(z: string, nOut: nat): (r: (seq<nat>, string))
    ensures |r.0| <= nOut
    decreases nOut
  {
    if z == "" || nOut == 0 then ([], z)
    else
      var (v, rest) := ReadNumber(z, 0);
      var r := Decode(SkipSpace(rest), nOut - 1);
      ([v] + r.0, r.1)
  }

  lemma Regroup(a: nat, b: nat, m: nat)
    ensures (10 * a + b) * m == 10 * (a * m) + b * m
  {
  }

  lemma RemStep(q: nat, d: nat, m: nat)
    requires m > 0
    ensures Rem(10 * Rem(q, m) + d, m) == Rem(10 * q + d, m)
  {
    QuotRem(q, m);
    var x := 10 * Rem(q, m) + d;
    QuotRem(x, m);
    Regroup(Quot(q, m), Quot(x, m), m);
    Unique(10 * q + d, m, 10 * Quot(q, m) + Quot(x, m), Rem(x, m));
  }

  lemma ReadDigit(d: nat, t: string, v: nat)
    requires d < 10
    ensures ReadNumber([DigitChar(d)] + t, v) == ReadNumber(t, AsU32(10 * v + d))
  {
    assert ([DigitChar(d)] + t)[1..] == t;
  }

  lemma {:induction false} ReadDigits(n: nat, t: string)
    ensures ReadNumber(Digits(n) + t, 0) == ReadNumber(t, AsU32(n))
  {
    if n >= 10 {
      var d := [DigitChar(n % 10)];
      assert Digits(n) + t == Digits(n / 10) + (d + t);
      ReadDigits(n / 10, d + t);
      ReadDigit(n % 10, t, AsU32(n / 10));
      RemStep(n / 10, n % 10, TWO32);
    } else {
      ReadDigit(n, t, 0);
    }
  }

  // The first n numbers, each as a tRowcnt.
  function ReadBack(nums: seq<nat>, n: nat): seq<nat>
    requires n <= |nums|
  {
    seq(n, i requires 0 <= i < n => AsU32(nums[i]))
  }

  // The number in front of a text, and the text behind it.
  lemma DecodeFirst(n: nat, t: string, nOut: nat)
    requires nOut > 0 && (t != "" ==> !IsDigit(t[0]))
    ensures Decode(Digits(n) + t, nOut).0 == [AsU32(n)] + Decode(SkipSpace(t), nOut - 1).0
    ensures Decode(Digits(n) + t, nOut).1 == Decode(SkipSpace(t), nOut - 1).1
  {
    ReadDigits(n, t);
  }

  lemma ReadBackFirst(nums: seq<nat>, n: nat)
    requires 0 < n <= |nums|
    ensures ReadBack(nums, n) == [AsU32(nums[0])] + ReadBack(nums[1..], n - 1)
  {
  }

  // The text behind the first number.
  function Rest(nums: seq<nat>): (t: string)
    requires nums != []
    ensures t != "" ==> !IsDigit(t[0])
    ensures Joined(nums) == Digits(nums[0]) + t && SkipSpace(t) == Joined(nums[1..])
  {
    if |nums| == 1 then "" else " " + Joined(nums[1..])
  }

  // What was written is read back, modulo 2^32, as far as there is room.
  lemma {:induction false} RoundTrip(nums: seq<nat>, nOut: nat)
    ensures Decode(Joined(nums), nOut).0 == ReadBack(nums, Min(nOut, |nums|))
    ensures nOut >= |nums| ==> Decode(Joined(nums), nOut).1 == ""
  {
    if nums != [] && nOut > 0 {
      var t := Rest(nums);
      DecodeFirst(nums[0], t, nOut);
      ReadBackFirst(nums, Min(nOut, |nums|));
      RoundTrip(nums[1..], nOut - 1);
    }
  }

  // The numbers come back unchanged exactly when all of them fit.
  lemma FaithfulIff(nums: seq<nat>)
    ensures Decode(Joined(nums), |nums|) == (nums, "") <==> forall i :: 0 <= i < |nums| ==> nums[i] < TWO32
  {
    RoundTrip(nums, |nums|);
    var back := ReadBack(nums, |nums|);
    if forall i :: 0 <= i < |nums| ==> nums[i] < TWO32 {
      assert back == nums;
    } else {
      var i :| 0 <= i < |nums| && nums[i] >= TWO32;
      assert back[i] < TWO32;
    }
  }

  // ---- the space that stat_get() allocates --------------------------------------------

  function Power10(k: nat): nat {
    if k == 0 then 1 else 10 * Power10(k - 1)
  }

  lemma {:induction false} DigitsFit(n: nat, k: nat)
    requires n < Power10(k) && k > 0
    ensures |Digits(n)| <= k
  {
    if n >= 10 {
      DigitsFit(n / 10, k - 1);
    }
  }

  lemma LongestNumber(n: nat)
    requires n < TWO64
    ensures |Digits(n)| <= 20
  {
    assert Power10(5) == 100_000;
    assert Power10(10) == 10_000_000_000;
    assert Power10(15) == 1_000_000_000_000_000;
    assert Power10(20) > TWO64;
    DigitsFit(n, 20);
  }

  // The 25 bytes allocated for each 64-bit number hold the text and its terminator,
  // and no number is cut off after the 23 characters that the print call allows.
  lemma {:induction false} JoinedFits(nums: seq<nat>)
    requires nums != [] && forall i :: 0 <= i < |nums| ==> nums[i] < TWO64
    ensures |Joined(nums)| + 1 < 25 * |nums|
    ensures forall i :: 0 <= i < |nums| ==> |Digits(nums[i])| + 1 <= 23
  {
    LongestNumber(nums[0]);
    if |nums| > 1 {
      JoinedFits(nums[1..]);
    }
  }

  // ---- the loops -------------------------------------------------------------------------

  // stat_get() for the counts of a sample: a space follows each number, and the
  // last one is cut off.
  method StatGetCounts(aCnt: seq<nat>) returns (zRet: string)
    requires aCnt != []
    ensures zRet == Joined(aCnt)
  {
    var z := "";
    var i := 0;
    while i < |aCnt|
      invariant 0 <= i <= |aCnt| && z == if i == 0 then "" else Joined(aCnt[..i]) + " "
    {
      assert aCnt[..i + 1] == aCnt[..i] + [aCnt[i]];
      JoinedNext(aCnt[..i], aCnt[i]);
      z := z + Digits(aCnt[i]) + " ";
      i := i + 1;
    }
    assert aCnt[..i] == aCnt;
    zRet := z[..|z| - 1];
  }

  // The inner loop of decodeIntArray().
  method ScanNumber(z0: string) returns (v: nat, z: string)
    ensures (v, z) == ReadNumber(z0, 0)
  {
    v, z := 0, z0;
    while z != "" && IsDigit(z[0])
      invariant ReadNumber(z0, 0) == ReadNumber(z, v)
      decreases |z|
    {
      v := AsU32(10 * v + (z[0] - '0') as nat);
      z := z[1..];
    }
  }

  // One more number after those in front.
  lemma DecodeTurn(front: seq<nat>, z: string, nOut: nat, v: nat, rest: string)
    requires z != "" && nOut > 0 && (v, rest) == ReadNumber(z, 0)
    ensures front + Decode(z, nOut).0 == (front + [v]) + Decode(SkipSpace(rest), nOut - 1).0
    ensures Decode(z, nOut).1 == Decode(SkipSpace(rest), nOut - 1).1
  {
  }

  // decodeIntArray() into aOut[]; z is what is left of the text.
  method DecodeIntArray(zIntArray: string, aOut: array<nat>) returns (n: nat, z: string)
    modifies aOut
    ensures n <= aOut.Length && aOut[..n] == Decode(zIntArray, aOut.Length).0 && z == Decode(zIntArray, aOut.Length).1
    ensures aOut[n..] == old(aOut[..])[n..]
  {
    ghost var all := Decode(zIntArray, aOut.Length);
    z := zIntArray;
    n := 0;
    assert aOut[..0] + all.0 == all.0;
    while z != "" && n < aOut.Length
      invariant 0 <= n <= aOut.Length && aOut[n..] == old(aOut[..])[n..]
      invariant all.0 == aOut[..n] + Decode(z, aOut.Length - n).0
      invariant all.1 == Decode(z, aOut.Length - n).1
      decreases aOut.Length - n
    {
      ghost var front := aOut[..n];
      var v, rest := ScanNumber(z);
      DecodeTurn(front, z, aOut.Length - n, v, rest);
      aOut[n] := v;
      assert aOut[..n + 1] == front + [v];
      z := SkipSpace(rest);
      n := n + 1;
    }
  }
}
