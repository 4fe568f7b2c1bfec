/** Revision and record-key ids: user_service/internal/repo/tid.go. */
module Tid {
  import opened Prelude

  /** alpha[c] for alpha = "234567abcdefghijklmnopqrstuvwxyz": digits then letters, ascending. */
  function Alpha(c: nat): byte
    requires c < 32
  {
    if c < 6 then 50 + c else 91 + c
  }

  /** The base-32 numeral of i, most significant digit first, with no leading zero digit. */
  function S32(i: nat): Bytes {
    if i == 0 then [] else S32(i / 32) + [Alpha(i % 32)]
  }

  /** One of the digits 2 to 7 or the letters a to z. */
  predicate InAlphabet(b: byte) { 50 <= b <= 55 || 97 <= b <= 122 }

  lemma {:induction false} S32Alphabet(i: nat)
    ensures forall b :: b in S32(i) ==> InAlphabet(b)
  {
    if i > 0 { S32Alphabet(i / 32); }
  }

  method S32Encode(n: nat) returns (s: Bytes)
    ensures s == S32(n)
    ensures forall b :: b in s ==> InAlphabet(b)
  {
    var i := n;
    s := [];
    while i > 0
      invariant S32(n) == S32(i) + s
    {
      var c := i % 32;
      i := i / 32;
      s := [Alpha(c)] + s;
    }
    S32Alphabet(n);
  }

  function Pow32(k: nat): nat {
    if k == 0 then 1 else 32 * Pow32(k - 1)
  }

  lemma {:induction false} S32Length(i: nat, k: nat)
    requires k > 0 && Pow32(k - 1) <= i < Pow32(k)
    ensures |S32(i)| == k
  {
    if k == 1 {
      assert S32(i / 32) == [];
    } else {
      assert Pow32(k) == 32 * Pow32(k - 1) && Pow32(k - 1) == 32 * Pow32(k - 2);
      S32Length(i / 32, k - 1);
    }
  }

  lemma {:induction false} S32Injective(a: nat, b: nat)
    requires S32(a) == S32(b)
    ensures a == b
  {
    if a != 0 && b != 0 {
      var sa, sb := S32(a), S32(b);
      assert sa[|sa| - 1] == Alpha(a % 32) && sb[|sb| - 1] == Alpha(b % 32);
      assert sa[..|sa| - 1] == S32(a / 32) && sb[..|sb| - 1] == S32(b / 32);
      S32Injective(a / 32, b / 32);
    }
  }

  lemma DigitOrder(c: nat, d: nat)
    requires c < 32 && d < 32
    ensures Lex([Alpha(c)], [Alpha(d)]) <==> c < d
  {
  }

  /** On numerals of one length the string order is the numeric order. */
  lemma {:induction false} S32Order(a: nat, b: nat)
    requires |S32(a)| == |S32(b)|
    ensures Lex(S32(a), S32(b)) <==> a < b
  {
    if a != 0 && b != 0 {
      S32Order(a / 32, b / 32);
      DigitOrder(a % 32, b % 32);
      hide Lex, Alpha;
      LexAppend(S32(a / 32), S32(b / 32), [Alpha(a % 32)], [Alpha(b % 32)]);
      if S32(a / 32) == S32(b / 32) { S32Injective(a / 32, b / 32); }
    }
  }

  /** The time NextTID stores when the clock reads `now`; uint64 addition wraps. */
  function Tick(lastTime: nat, now: nat): nat {
    if lastTime >= now then (lastTime + 1) % TWO_64 else now
  }

  /** The process-wide id source; NextTID's body runs under ltLock, so calls are serial. */
  class TidSource {
    var lastTime: nat
    const clockId: nat

    constructor (randomBits: nat)
      ensures lastTime == 0 && clockId < 32
    {
      lastTime, clockId := 0, randomBits % 32;
    }

    /**
     * The new time is above every time handed out before, and not behind the caller's clock, unless
     * the counter wraps around at 2^64.
     */
    method NextTID(now: nat) returns (tid: Bytes)
      modifies this
      ensures now > old(lastTime) || old(lastTime) + 1 < TWO_64 ==> lastTime > old(lastTime) && lastTime >= now
      ensures lastTime == Tick(old(lastTime), now)
      ensures tid == S32(lastTime) + S32(clockId)
      ensures forall b :: b in tid ==> InAlphabet(b)
    {
      var t := now;
      if lastTime >= t {
        t := (lastTime + 1) % TWO_64;
      }
      lastTime := t;
      var high := S32Encode(t);
      var low := S32Encode(clockId);
      tid := high + low;
    }
  }

  /** The times handed out when callers take the lock having read the clock as nows[0], nows[1], ... */
  function Times(lastTime: nat, nows: seq<nat>): (ts: seq<nat>)
    ensures |ts| == |nows|
    decreases |nows|
  {
    if nows == [] then [] else
      var t := Tick(lastTime, nows[0]);
      [t] + Times(t, nows[1..])
  }

  function TidOf(t: nat, clockId: nat): Bytes {
    S32(t) + S32(clockId)
  }

  lemma {:induction false} TimesIncrease(lastTime: nat, nows: seq<nat>, top: nat)
    requires lastTime <= top && forall i :: 0 <= i < |nows| ==> nows[i] <= top
    requires top + |nows| < TWO_64
    ensures var ts := Times(lastTime, nows);
            forall i :: 0 <= i < |ts| ==>
              && lastTime < ts[i] && nows[i] <= ts[i] <= top + |nows|
              && forall j :: 0 <= j < i ==> ts[j] < ts[i]
    decreases |nows|
  {
    if nows != [] {
      var t := Tick(lastTime, nows[0]);
      TimesIncrease(t, nows[1..], if t <= top then top else top + 1);
      var ts, rest := Times(lastTime, nows), Times(t, nows[1..]);
      forall i | 0 <= i < |ts|
        ensures lastTime < ts[i] && nows[i] <= ts[i] <= top + |nows|
        ensures forall j :: 0 <= j < i ==> ts[j] < ts[i]
      {
        if i > 0 {
          assert ts[i] == rest[i - 1] && nows[i] == nows[1..][i - 1];
          forall j | 0 <= j < i ensures ts[j] < ts[i] {
            if j > 0 { assert ts[j] == rest[j - 1]; }
          }
        }
      }
    }
  }

  /** Whatever the clocks read, and in whatever order the lock is taken, no id is handed out twice. */
  lemma TidsDistinct(lastTime: nat, nows: seq<nat>, top: nat, clockId: nat, i: nat, j: nat)
    requires lastTime <= top && forall i :: 0 <= i < |nows| ==> nows[i] <= top
    requires top + |nows| < TWO_64
    requires i < j < |nows|
    ensures var ts := Times(lastTime, nows); TidOf(ts[i], clockId) != TidOf(ts[j], clockId)
  {
    var ts := Times(lastTime, nows);
    TimesIncrease(lastTime, nows, top);
    var a, b, c := S32(ts[i]), S32(ts[j]), S32(clockId);
    if a + c == b + c {
      assert |a| == |b|;
      assert a == (a + c)[..|a|] == (b + c)[..|b|] == b;
      S32Injective(ts[i], ts[j]);
    }
  }

  /** Two times with k digits each: the later one has the greater id. */
  lemma OneLengthOrdered(a: nat, b: nat, clockId: nat, k: nat)
    requires k > 0 && Pow32(k - 1) <= a < b < Pow32(k)
    ensures Lex(TidOf(a, clockId), TidOf(b, clockId))
  {
    S32Length(a, k);
    S32Length(b, k);
    S32Order(a, b);
    LexAppend(S32(a), S32(b), S32(clockId), S32(clockId));
  }

  /**
   * Ids come out in string order, in the order the lock is taken, as long as the times handed
   * out have the same number k of base-32 digits. For k == 11 that is [2^50, 2^55).
   */
  lemma TidsOrdered(lastTime: nat, nows: seq<nat>, top: nat, clockId: nat, k: nat, i: nat, j: nat)
    requires lastTime <= top && forall i :: 0 <= i < |nows| ==> nows[i] <= top
    requires top + |nows| < TWO_64
    requires k > 0 && i < j < |nows|
    requires Pow32(k - 1) <= nows[i] && Times(lastTime, nows)[j] < Pow32(k)
    ensures var ts := Times(lastTime, nows); Lex(TidOf(ts[i], clockId), TidOf(ts[j], clockId))
  {
    var ts := Times(lastTime, nows);
    TimesIncrease(lastTime, nows, top);
    OneLengthOrdered(ts[i], ts[j], clockId, k);
  }

  lemma {:induction false} S32Short(i: nat, k: nat)
    requires i < Pow32(k)
    ensures |S32(i)| <= k
    decreases k
  {
    if i > 0 { S32Short(i / 32, k - 1); }
  }

  /** Ids of at most 13 digits for the time and one for the clock. */
  lemma TidShort(t: nat, clockId: nat)
    requires t < TWO_64 && clockId < 32
    ensures |TidOf(t, clockId)| <= 14
  {
    MicrosecondRange();
    assert Pow32(13) == 32 * 32 * Pow32(11);
    assert Pow32(1) == 32;
    S32Short(t, 13);
    S32Short(clockId, 1);
  }

  /** The times NextTID is meant for. */
  const EARLIEST := 0x4_0000_0000_0000
  const LATEST := 0x80_0000_0000_0000

  /** Between them, a later time has a greater id. */
  lemma TidLess(a: nat, b: nat, clockId: nat)
    requires EARLIEST <= a < b < LATEST
    ensures Lex(TidOf(a, clockId), TidOf(b, clockId))
  {
    MicrosecondRange();
    OneLengthOrdered(a, b, clockId, 11);
  }

  /** The microsecond clock stays in one digit range from September 2005 until the year 3111. */
  lemma MicrosecondRange()
    ensures Pow32(10) == 0x4_0000_0000_0000 && Pow32(11) == 0x80_0000_0000_0000
  {
    assert Pow32(5) == 0x200_0000;
    assert Pow32(10) == 32 * 32 * 32 * 32 * 32 * Pow32(5);
  }

  // ----- exactly when the order holds -----

  /** A positive number lies between the powers of 32 its numeral's length names. */
  lemma {:induction false} S32Range(i: nat)
    requires i > 0
    ensures var k := |S32(i)|; k > 0 && Pow32(k - 1) <= i < Pow32(k)
  {
    if i >= 32 {
      S32Range(i / 32);
    } else {
      assert S32(i / 32) == [];
    }
  }

  /** The last numeral of k digits is all "z"; the next one starts with "3". */
  lemma {:induction false} AtPower(k: nat)
    requires k > 0
    ensures Pow32(k) > 1 && S32(Pow32(k) - 1) != [] && S32(Pow32(k) - 1)[0] == 122
    ensures S32(Pow32(k)) != [] && S32(Pow32(k))[0] == 51
  {
    var n := Pow32(k - 1);
    if k == 1 {
      assert S32(31) == S32(0) + [122] && S32(1) == S32(0) + [51];
    } else {
      AtPower(k - 1);
      assert (32 * n - 1) / 32 == n - 1 && 32 * n / 32 == n;
    }
  }

  /** At every digit boundary the order is lost: the next id sorts before the last one, whatever the clock id. */
  lemma OrderLostAcrossDigits(k: nat, clockId: nat)
    requires k > 0
    ensures Pow32(k) > 0 && !Lex(TidOf(Pow32(k) - 1, clockId), TidOf(Pow32(k), clockId))
  {
    hide S32;
    AtPower(k);
  }

  /** All times from lo to hi have ids in their own order. */
  ghost predicate Ordered(lo: nat, hi: nat, clockId: nat) {
    forall a, b :: lo <= a < b <= hi ==> Lex(TidOf(a, clockId), TidOf(b, clockId))
  }

  /**
   * Ids of all times in a range are in string order exactly when the range has numerals of one
   * length; so the order of microsecond ids holds up to 2^55 - 1, and not past it.
   */
  lemma OrderedIff(lo: nat, hi: nat, clockId: nat)
    requires 1 <= lo <= hi
    ensures Ordered(lo, hi, clockId) <==> |S32(lo)| == |S32(hi)|
  {
    hide Ordered, S32, Pow32;
    S32Range(lo);
    S32Range(hi);
    if |S32(lo)| == |S32(hi)| {
      AllOrdered(lo, hi, clockId, |S32(lo)|);
    } else {
      var k, m := |S32(lo)|, |S32(hi)|;
      if m < k { PowGrows(m, k - 1); } else { PowGrows(k, m - 1); }
      NotOrdered(lo, hi, clockId, k);
    }
  }

  lemma AllOrdered(lo: nat, hi: nat, clockId: nat, k: nat)
    requires k > 0 && Pow32(k - 1) <= lo && hi < Pow32(k)
    ensures Ordered(lo, hi, clockId)
  {
    hide S32, Lex, Pow32, TidOf;
    forall a, b | lo <= a < b <= hi ensures Lex(TidOf(a, clockId), TidOf(b, clockId)) {
      OneLengthOrdered(a, b, clockId, k);
    }
  }

  lemma NotOrdered(lo: nat, hi: nat, clockId: nat, k: nat)
    requires k > 0 && lo < Pow32(k) <= hi
    ensures !Ordered(lo, hi, clockId)
  {
    hide S32, Lex, Pow32, TidOf;
    OrderLostAcrossDigits(k, clockId);
  }

  lemma {:induction false} PowGrows(i: nat, j: nat)
    requires i <= j
    ensures Pow32(i) <= Pow32(j)
  {
    if i < j { PowGrows(i, j - 1); }
  }
}
