/** The call timeout on its way from the caller's milliseconds to the request's 16 bits. */
module Timeout {
  import opened Machine

  const MILLISECOND_PER_SECOND := 1000

  /** What OckRpcClientSetTimeout stores in g_timeoutTime. */
  function Stored(timeout: i64): i32 {
    if timeout < 0 then ToI32(timeout) else ToI32(timeout / MILLISECOND_PER_SECOND)
  }

  /** What a request carries in Service_OpInfo.timeout. */
  function Carried(timeout: i64): i16 {
    ToI16(Stored(timeout))
  }

  lemma Shift16(n: int, k: int)
    ensures (n + 0x1_0000 * k) % 0x1_0000 == n % 0x1_0000
  {
    var p, r: int := n / 0x1_0000, n % 0x1_0000;
    assert n + 0x1_0000 * k == 0x1_0000 * (p + k) + r;
  }

  /** The second narrowing makes the first one irrelevant. */
  lemma NarrowTwice(n: int)
    ensures ToI16(ToI32(n)) == ToI16(n)
  {
    var q, m: int := n / 0x1_0000_0000, n % 0x1_0000_0000;
    Shift16(m, 0x1_0000 * q);
    Shift16(m, -0x1_0000);
  }

  lemma NarrowExact(n: int)
    ensures ToI16(n) == n <==> -0x8000 <= n < 0x8000
  {
  }

  /** What is stored, for any timeout: a 32-bit number, congruent to the whole seconds or the negative value. */
  lemma StoredExact(timeout: i64)
    ensures var n := if timeout < 0 then timeout else timeout / 1000;
      && -0x8000_0000 <= Stored(timeout) <= 0x7FFF_FFFF
      && (n - Stored(timeout)) % 0x1_0000_0000 == 0
      && (Stored(timeout) == n <==> -0x8000_0000 <= n <= 0x7FFF_FFFF)
  {
    var n: int := if timeout < 0 then timeout else timeout / 1000;
    assert n == 0x1_0000_0000 * (n / 0x1_0000_0000) + n % 0x1_0000_0000;
    var q: int := n / 0x1_0000_0000;
    if n % 0x1_0000_0000 < 0x8000_0000 {
      assert n - Stored(timeout) == 0x1_0000_0000 * q;
    } else {
      assert n - Stored(timeout) == 0x1_0000_0000 * (q + 1);
    }
  }

  /** Whole seconds survive exactly below 32768 of them. */
  lemma SecondsIff(timeout: i64)
    requires 0 <= timeout
    ensures Carried(timeout) == timeout / MILLISECOND_PER_SECOND <==> timeout < 32768000
  {
    NarrowTwice(timeout / MILLISECOND_PER_SECOND);
    NarrowExact(timeout / MILLISECOND_PER_SECOND);
  }

  /** A negative timeout is carried unchanged exactly down to -32768. */
  lemma NegativeIff(timeout: i64)
    requires timeout < 0
    ensures Carried(timeout) == timeout <==> -32768 <= timeout
  {
    NarrowTwice(timeout);
    NarrowExact(timeout);
  }

  /** Whether the carried timeout is negative is decided by bit 15 of the value stored. */
  lemma SignIff(timeout: i64)
    ensures var n := if timeout < 0 then timeout else timeout / MILLISECOND_PER_SECOND;
      Carried(timeout) < 0 <==> 0x8000 <= n % 0x1_0000
  {
    NarrowTwice(if timeout < 0 then timeout else timeout / MILLISECOND_PER_SECOND);
  }

  /** The timeout in force before any is set: 1000 seconds. */
  const DEFAULT_TIMEOUT := 1000000

  class Settings {
    var g_timeoutTime: i32
    // what the library was told, by channel
    var oneSide: map<Ptr, i32>
    var twoSide: map<Ptr, i32>
    /** The timeout the last caller asked for. */
    ghost var asked: i64

    ghost predicate Valid()
      reads this
    {
      g_timeoutTime == Stored(asked)
    }

    constructor ()
      ensures Valid() && asked == 1000000 && g_timeoutTime == 1000 && oneSide == twoSide == map[]
    {
      g_timeoutTime, asked := 1000, DEFAULT_TIMEOUT;
      oneSide, twoSide := map[], map[];
    }

    method SetTimeout(client: Ptr, timeout: i64)
      modifies this
      ensures Valid() && asked == timeout
      ensures 0 <= timeout < 2147483648000 ==> g_timeoutTime == timeout / 1000
      ensures -0x8000_0000 <= timeout < 0 ==> g_timeoutTime == timeout
      ensures oneSide == old(oneSide)[client := Stored(timeout)] && twoSide == old(twoSide)[client := Stored(timeout)]
    {
      var timeoutSeconds := 0;
      if timeout < 0 {
        timeoutSeconds := ToI32(timeout);
      } else {
        timeoutSeconds := ToI32(timeout / MILLISECOND_PER_SECOND);
      }
      g_timeoutTime := timeoutSeconds;
      oneSide := oneSide[client := g_timeoutTime];
      twoSide := twoSide[client := g_timeoutTime];
      asked := timeout;
    }

    /**
     The timeout OckRpcClientCall writes into its request: the whole seconds of the one
     asked for, or the negative value itself, exactly when 16 bits hold it.
     */
    method RequestTimeout() returns (t: i16)
      requires Valid()
      ensures 0 <= asked ==> (t == asked / MILLISECOND_PER_SECOND <==> asked < 32768000)
      ensures asked < 0 ==> (t == asked <==> -32768 <= asked)
      ensures -32768 <= asked < 32768000 ==> (t < 0 <==> asked < 0)
    {
      if 0 <= asked {
        SecondsIff(asked);
      } else {
        NegativeIff(asked);
      }
      t := ToI16(g_timeoutTime);
    }
  }
}
