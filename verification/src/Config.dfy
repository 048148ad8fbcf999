/** The configuration map, number parsing, and the sizing of a client's memory pool. */
module Config {
  import opened Machine

  const SEGMENT_SIZE_KEY := "server.create.segsize"
  const SEGMENT_COUNT_KEY := "server.create.segcount"
  const DEFAULT_SEGMENT_SIZE := 64 * 1024
  const DEFAULT_SEGMENT_COUNT := 1024
  const MAX_SEGMENT_SIZE := 943718400
  const MAX_SEGMENT_COUNT := 65535
  const MR_MIN_SIZE := 4 * 1024
  const MR_PRE_ALLOC_CNT := 10
  const MR_BUCKET_MAP_SIZE := 1024

  type ConfigMap = map<string, string>

  // The configuration map

  /** RpcConfigPair; either pointer may be null. */
  datatype Pair = Pair(key: Option<string>, value: Option<string>)

  /** The value of the first pair with the key. */
  function FirstValue(pairs: seq<Pair>, key: string): Option<string> {
    if pairs == [] then None
    else if pairs[0].key == Some(key) then pairs[0].value
    else FirstValue(pairs[1..], key)
  }

  function Find(m: ConfigMap, key: string): Option<string> {
    if key in m then Some(m[key]) else None
  }

  predicate Complete(pairs: seq<Pair>) {
    forall i :: 0 <= i < |pairs| ==> pairs[i].key.Some? && pairs[i].value.Some?
  }

  lemma {:induction false} FirstValueSnoc(pairs: seq<Pair>, p: Pair, key: string)
    requires Complete(pairs)
    ensures FirstValue(pairs + [p], key) ==
      if FirstValue(pairs, key).Some? then FirstValue(pairs, key)
      else if p.key == Some(key) then p.value else None
  {
    if pairs == [] {
      assert [p][1..] == [];
    } else {
      assert (pairs + [p])[1..] == pairs[1..] + [p];
      assert Complete(pairs[1..]);
      FirstValueSnoc(pairs[1..], p, key);
    }
  }

  /** The pair that counts for a key is the one no pair before it has the key of. */
  lemma {:induction false} FirstValueExact(pairs: seq<Pair>, key: string, value: string)
    requires forall i :: 0 <= i < |pairs| ==> pairs[i].key.Some? && pairs[i].value.Some?
    ensures FirstValue(pairs, key) == Some(value) <==>
      exists i :: 0 <= i < |pairs| && pairs[i] == Pair(Some(key), Some(value))
                  && forall j :: 0 <= j < i ==> pairs[j].key != Some(key)
  {
    if pairs != [] && pairs[0].key != Some(key) {
      var rest := pairs[1..];
      FirstValueExact(rest, key, value);
      if i :| 0 <= i < |rest| && rest[i] == Pair(Some(key), Some(value))
              && forall j :: 0 <= j < i ==> rest[j].key != Some(key)
      {
        assert pairs[i + 1] == rest[i];
        assert forall j :: 0 < j < i + 1 ==> pairs[j] == rest[j - 1];
      }
      if i :| 0 <= i < |pairs| && pairs[i] == Pair(Some(key), Some(value))
              && forall j :: 0 <= j < i ==> pairs[j].key != Some(key)
      {
        assert rest[i - 1] == pairs[i];
        assert forall j :: 0 <= j < i - 1 ==> rest[j] == pairs[j + 1];
      }
    }
  }

  /**
   OckRpcInitConfigMap. The map it builds answers every key as a scan of the pairs
   from the front would.
   */
  method InitConfigMap(useConfigs: bool, pairs: Option<seq<Pair>>, size: int) returns (ok: bool, m: ConfigMap)
    requires pairs.Some? ==> size <= |pairs.value|
    ensures ok <==> !useConfigs || (pairs.Some? && 0 <= size && Complete(pairs.value[..size]))
    ensures ok && !useConfigs ==> m == map[]
    ensures ok && useConfigs ==> forall key :: Find(m, key) == FirstValue(pairs.value[..size], key)
  {
    m := map[];
    if !useConfigs {
      return true, m;
    }
    if pairs.None? || size < 0 {
      return false, m;
    }
    var i := 0;
    while i < size
      invariant 0 <= i <= size
      invariant Complete(pairs.value[..i])
      invariant forall key :: Find(m, key) == FirstValue(pairs.value[..i], key)
    {
      var p := pairs.value[i];
      if p.key.None? || p.value.None? {
        assert !Complete(pairs.value[..size]) by {
          assert pairs.value[..size][i] == p;
        }
        return false, m;
      }
      ghost var before := m;
      if p.key.value !in m {
        m := m[p.key.value := p.value.value];
      }
      assert pairs.value[..i + 1] == pairs.value[..i] + [p];
      forall key
        ensures Find(m, key) == FirstValue(pairs.value[..i + 1], key)
      {
        FirstValueSnoc(pairs.value[..i], p, key);
        assert Find(before, key) == FirstValue(pairs.value[..i], key);
      }
      i := i + 1;
    }
    ok := true;
  }

  // Numbers

  datatype Parsed = Number(n: i32) | NotANumber | OutOfRange

  predicate IsSpace(c: char) {
    c == ' ' || '\t' <= c <= '\r'
  }

  predicate IsDigit(c: char) {
    '0' <= c <= '9'
  }

  function SkipSpace(s: string): string {
    if s != "" && IsSpace(s[0]) then SkipSpace(s[1..]) else s
  }

  /** The value of the leading digits, added to what came before. */
  function Digits(s: string, acc: nat): nat {
    if s != "" && IsDigit(s[0]) then Digits(s[1..], 10 * acc + (s[0] - '0') as int) else acc
  }

  /** std::stoi, base 10: leading white space, a sign, digits; the rest is ignored. */
  function Stoi(text: string): Parsed {
    var s := SkipSpace(text);
    var negative := s != "" && s[0] == '-';
    var body := if s != "" && (s[0] == '-' || s[0] == '+') then s[1..] else s;
    if body == "" || !IsDigit(body[0]) then NotANumber
    else
      var n: int := if negative then -(Digits(body, 0) as int) else Digits(body, 0);
      if -0x8000_0000 <= n < 0x8000_0000 then Number(n) else OutOfRange
  }

  /** A number as it is written in decimal. */
  function Decimal(n: nat): string {
    var digit := '0' + (n % 10) as char;
    if n < 10 then [digit] else Decimal(n / 10) + [digit]
  }

  function Written(n: int): string {
    if n < 0 then "-" + Decimal(-n) else Decimal(n)
  }

  predicate AllDigits(s: string) {
    forall i :: 0 <= i < |s| ==> IsDigit(s[i])
  }

  lemma {:induction false} DigitsSnoc(s: string, c: char, acc: nat)
    requires AllDigits(s) && IsDigit(c)
    ensures Digits(s + [c], acc) == 10 * Digits(s, acc) + (c - '0') as int
  {
    if s == "" {
      assert "" + [c] == [c];
      assert [c][1..] == "";
    } else {
      assert (s + [c])[1..] == s[1..] + [c];
      DigitsSnoc(s[1..], c, 10 * acc + (s[0] - '0') as int);
    }
  }

  lemma {:induction false} DecimalDigits(n: nat)
    ensures Decimal(n) != "" && AllDigits(Decimal(n)) && Digits(Decimal(n), 0) == n
  {
    var digit := '0' + (n % 10) as char;
    if n < 10 {
      DigitsSnoc("", digit, 0);
      assert "" + [digit] == [digit];
    } else {
      DecimalDigits(n / 10);
      DigitsSnoc(Decimal(n / 10), digit, 0);
    }
  }

  /** A number written in decimal is read back exactly when it fits an int; otherwise it is refused. */
  lemma StoiReadsBack(n: int)
    ensures Stoi(Written(n)) == if -0x8000_0000 <= n < 0x8000_0000 then Number(n) else OutOfRange
  {
    if n < 0 {
      DecimalDigits(-n);
      assert ("-" + Decimal(-n))[1..] == Decimal(-n);
    } else {
      DecimalDigits(n);
      assert IsDigit(Decimal(n)[0]);
    }
  }

  // What std::stoi promises, told from the parts of a text

  /** The value of a row of digits, from its last digit. */
  function Value(digits: string): nat
    requires AllDigits(digits)
  {
    if digits == "" then 0
    else 10 * Value(digits[..|digits| - 1]) + (digits[|digits| - 1] - '0') as int
  }

  predicate Blank(s: string) {
    forall i :: 0 <= i < |s| ==> s[i] in [' ', '\t', '\n', 11 as char, 12 as char, '\r']
  }

  /** The text has no digit right behind its leading white space and sign. */
  ghost predicate NoNumber(text: string) {
    !exists spaces: string, sign: string, rest: string ::
      Blank(spaces) && sign in ["", "+", "-"] && rest != "" && '0' <= rest[0] <= '9' && text == spaces + sign + rest
  }

  lemma {:induction false} SkipsBlank(spaces: string, s: string)
    requires Blank(spaces) && (s == "" || !IsSpace(s[0]))
    ensures SkipSpace(spaces + s) == s
  {
    if spaces == "" {
      assert spaces + s == s;
    } else {
      assert (spaces + s)[1..] == spaces[1..] + s;
      SkipsBlank(spaces[1..], s);
    }
  }

  lemma {:induction false} SkippedBlank(text: string) returns (spaces: string)
    ensures Blank(spaces) && text == spaces + SkipSpace(text)
  {
    if text == "" || !IsSpace(text[0]) {
      spaces := "";
    } else {
      var rest := SkippedBlank(text[1..]);
      spaces := [text[0]] + rest;
    }
  }

  lemma {:induction false} DigitsStop(digits: string, rest: string, acc: nat)
    requires AllDigits(digits) && (rest == "" || !IsDigit(rest[0]))
    ensures Digits(digits + rest, acc) == Digits(digits, acc)
  {
    if digits == "" {
      assert digits + rest == rest;
    } else {
      assert (digits + rest)[1..] == digits[1..] + rest;
      DigitsStop(digits[1..], rest, 10 * acc + (digits[0] - '0') as int);
    }
  }

  lemma {:induction false} DigitsValue(digits: string)
    requires AllDigits(digits)
    ensures Digits(digits, 0) == Value(digits)
  {
    if digits != "" {
      var front := digits[..|digits| - 1];
      DigitsValue(front);
      assert front + [digits[|digits| - 1]] == digits;
      DigitsSnoc(front, digits[|digits| - 1], 0);
    }
  }

  /** White space, a sign, digits, anything: the digits are the number, refused if it does not fit an int. */
  lemma StoiExact(spaces: string, sign: string, digits: string, rest: string)
    requires Blank(spaces) && sign in ["", "+", "-"] && digits != "" && AllDigits(digits)
    requires rest == "" || !IsDigit(rest[0])
    ensures var n: int := if sign == "-" then -(Value(digits) as int) else Value(digits);
      Stoi(spaces + sign + digits + rest) == if -0x8000_0000 <= n < 0x8000_0000 then Number(n) else OutOfRange
  {
    var body := digits + rest;
    assert spaces + sign + digits + rest == spaces + (sign + body);
    assert sign != "" ==> (sign + body)[1..] == body;
    assert sign == "" ==> sign + body == body;
    SkipsBlank(spaces, sign + body);
    DigitsStop(digits, rest, 0);
    DigitsValue(digits);
  }

  lemma Reads(spaces: string, sign: string, rest: string)
    requires Blank(spaces) && sign in ["", "+", "-"] && rest != "" && '0' <= rest[0] <= '9'
    ensures Stoi(spaces + sign + rest) != NotANumber
  {
    assert spaces + sign + rest == spaces + (sign + rest);
    assert sign != "" ==> (sign + rest)[1..] == rest;
    assert sign == "" ==> sign + rest == rest;
    SkipsBlank(spaces, sign + rest);
  }

  lemma ReadsOnly(text: string) returns (spaces: string, sign: string, rest: string)
    requires Stoi(text) != NotANumber
    ensures Blank(spaces) && sign in ["", "+", "-"] && rest != "" && '0' <= rest[0] <= '9'
    ensures text == spaces + sign + rest
  {
    spaces := SkippedBlank(text);
    var s := SkipSpace(text);
    sign := if s[0] == '-' || s[0] == '+' then [s[0]] else "";
    rest := s[|sign|..];
    assert s == sign + rest;
    assert spaces + sign + rest == spaces + s;
  }

  lemma StoiRefusesIff(text: string)
    ensures Stoi(text) == NotANumber <==> NoNumber(text)
  {
    if Stoi(text) != NotANumber {
      var spaces, sign, rest := ReadsOnly(text);
    }
    if !NoNumber(text) {
      var spaces: string, sign: string, rest: string :|
        Blank(spaces) && sign in ["", "+", "-"] && rest != "" && '0' <= rest[0] <= '9' && text == spaces + sign + rest;
      Reads(spaces, sign, rest);
    }
  }

  /** OckRpcString2Num: the new value of `size`, None for an error. */
  function String2Num(config: ConfigMap, key: string, size: u32): Option<u32> {
    if key !in config then Some(size)
    else
      match Stoi(config[key])
      case Number(n) => Some(ToU32(n))
      case NotANumber => None
      case OutOfRange => None
  }

  // The pool

  datatype AllocatorOptions = AllocatorOptions(
    address: Ptr,
    size: u64,
    minBlockSize: u32,
    bucketCount: u32,
    alignedAddress: bool,
    cacheTierCount: u16,
    cacheBlockCountPerTier: u16)

  datatype PoolPlan =
    | Options(options: AllocatorOptions)
    | EmptyPool       // OCK_RPC_ERR_INVALID_PARAM: the client gets no pool
    | Refusal         // OCK_RPC_ERR

  function BitLength(n: nat): nat {
    if n == 0 then 0 else 1 + BitLength(n / 2)
  }

  /** Calculate2PowerTimes */
  method Calculate2PowerTimes(powerNum: u32) returns (count: u32)
    ensures count == BitLength(powerNum)
  {
    BitLengthOfU32(powerNum);
    var n := powerNum;
    count := 0;
    while n != 0
      invariant 0 <= n
      invariant count + BitLength(n) == BitLength(powerNum)
      decreases n
    {
      n := n / 2;
      count := count + 1;
    }
  }

  function Pow2(k: nat): nat {
    if k == 0 then 1 else 2 * Pow2(k - 1)
  }

  /** The loop counts the bits: 0 has none, any other number lies between two neighbouring powers. */
  lemma {:induction false} BitLengthPowers(n: nat)
    ensures BitLength(n) == 0 <==> n == 0
    ensures n > 0 ==> Pow2(BitLength(n) - 1) <= n < Pow2(BitLength(n))
  {
    if n > 1 {
      BitLengthPowers(n / 2);
    }
  }

  lemma {:induction false} BitLengthBound(n: nat, k: nat)
    requires n < Pow2(k)
    ensures BitLength(n) <= k
  {
    if n > 0 {
      BitLengthBound(n / 2, k - 1);
    }
  }

  lemma {:induction false} Pow2Add(j: nat, k: nat)
    ensures Pow2(j + k) == Pow2(j) * Pow2(k)
  {
    if j > 0 {
      Pow2Add(j - 1, k);
    }
  }

  lemma BitLengthOfU32(n: u32)
    ensures BitLength(n) <= 32
  {
    Pow2Add(4, 4);
    Pow2Add(8, 8);
    Pow2Add(16, 16);
    assert Pow2(4) == 16;
    BitLengthBound(n, 32);
  }

  /** Both factors are 32-bit; so is their product. */
  function Product32(size: u32, count: u32): u32 {
    ToU32(size * count)
  }

  /** The segment size and count a client's configuration asks for, unless they are refused. */
  function SegmentSize(config: ConfigMap): Option<u32> {
    var size := String2Num(config, SEGMENT_SIZE_KEY, DEFAULT_SEGMENT_SIZE);
    if size.Some? && size.value <= MAX_SEGMENT_SIZE then size else None
  }

  function SegmentCount(config: ConfigMap): Option<u32> {
    var count := String2Num(config, SEGMENT_COUNT_KEY, DEFAULT_SEGMENT_COUNT);
    if count.Some? && count.value <= MAX_SEGMENT_COUNT then count else None
  }

  /**
   The segment size and count in use, from the text alone: 65536 and 1024 where none is
   written, a number written where it is within its bounds, and a refusal for any other.
   */
  lemma SizesExact(config: ConfigMap)
    ensures "server.create.segsize" !in config ==> SegmentSize(config) == Some(65536)
    ensures "server.create.segcount" !in config ==> SegmentCount(config) == Some(1024)
    ensures "server.create.segsize" in config ==>
      SegmentSize(config) == InBounds(config["server.create.segsize"], 943718400)
    ensures "server.create.segcount" in config ==>
      SegmentCount(config) == InBounds(config["server.create.segcount"], 65535)
  {
    if "server.create.segsize" in config && Stoi(config["server.create.segsize"]).Number? {
      WidenNegative(Stoi(config["server.create.segsize"]).n);
    }
    if "server.create.segcount" in config && Stoi(config["server.create.segcount"]).Number? {
      WidenNegative(Stoi(config["server.create.segcount"]).n);
    }
  }

  /** The number in the text if there is one and it is from 0 to `max`. */
  function InBounds(text: string, max: nat): Option<u32>
    requires max < 0x8000_0000
  {
    match Stoi(text)
    case Number(n) => if 0 <= n <= max then Some(n) else None
    case _ => None
  }

  lemma WidenNegative(n: i32)
    ensures ToU32(n) == if n < 0 then 0x1_0000_0000 + n else n
  {
  }

  /** A number written in decimal, of any size: it is in use exactly within the bounds. */
  lemma WrittenSizes(config: ConfigMap, n: int)
    ensures "server.create.segsize" in config && config["server.create.segsize"] == Written(n) ==>
      SegmentSize(config) == if 0 <= n <= 943718400 then Some(n) else None
    ensures "server.create.segcount" in config && config["server.create.segcount"] == Written(n) ==>
      SegmentCount(config) == if 0 <= n <= 65535 then Some(n) else None
  {
    SizesExact(config);
    StoiReadsBack(n);
  }

  /** OckRpcSetAllocatorOption; `address` is what malloc answers. */
  method SetAllocatorOption(config: ConfigMap, address: Ptr) returns (plan: PoolPlan)
    ensures plan.Refusal? <==>
      SegmentSize(config).None? || SegmentCount(config).None?
      || ((SegmentSize(config).value * SegmentCount(config).value) % 0x1_0000_0000 != 0 && address == 0)
    ensures plan.EmptyPool? <==>
      SegmentSize(config).Some? && SegmentCount(config).Some?
      && (SegmentSize(config).value * SegmentCount(config).value) % 0x1_0000_0000 == 0
    ensures "server.create.segsize" !in config && "server.create.segcount" !in config && address != 0 ==>
      plan.Options? && plan.options.size == 67108864 && plan.options.cacheTierCount == 5
    ensures plan.Options? ==>
      var size, count := SegmentSize(config).value, SegmentCount(config).value;
      && plan.options.address == address != 0
      && plan.options.size == PoolSize(size, count)
      && plan.options.size == (if (size * count) % 0x1_0000_0000 < 4096 then 4096 else (size * count) % 0x1_0000_0000)
      && plan.options.cacheTierCount == BitLength(size / 4096)
      && plan.options.minBlockSize == 4096
      && plan.options.cacheBlockCountPerTier == 10
      && plan.options.bucketCount == 1024
      && plan.options.alignedAddress
  {
    var maxSize := String2Num(config, SEGMENT_SIZE_KEY, DEFAULT_SEGMENT_SIZE);
    if maxSize.None? || maxSize.value > MAX_SEGMENT_SIZE {
      return Refusal;
    }
    var maxCount := String2Num(config, SEGMENT_COUNT_KEY, DEFAULT_SEGMENT_COUNT);
    if maxCount.None? || maxCount.value > MAX_SEGMENT_COUNT {
      return Refusal;
    }
    var allocatorSize := Product32(maxSize.value, maxCount.value);
    if allocatorSize == 0 {
      return EmptyPool;
    }
    if allocatorSize < MR_MIN_SIZE {
      allocatorSize := MR_MIN_SIZE;
    }
    if address == 0 {
      return Refusal;
    }
    var multiple := maxSize.value / MR_MIN_SIZE;
    var tiers := Calculate2PowerTimes(multiple);
    BitLengthOfU32(multiple);
    assert BitLength(16) == 5;
    return Options(AllocatorOptions(
      address, allocatorSize, MR_MIN_SIZE, MR_BUCKET_MAP_SIZE, true, tiers, MR_PRE_ALLOC_CNT));
  }

  /** The size of the pool: the product is taken in 32 bits before it is widened. */
  function PoolSize(size: u32, count: u32): u64 {
    var product := Product32(size, count);
    if product < MR_MIN_SIZE then MR_MIN_SIZE else product
  }

  /**
   There is a pool, and of the size asked for, rounded up to the minimum, exactly when
   the product of segment size and count fits 32 bits. Otherwise it is smaller, or there
   is none.
   */
  lemma PoolSizeIff(size: u32, count: u32)
    requires 0 < size && 0 < count
    ensures var asked := size * count;
      var rounded := if asked < MR_MIN_SIZE then MR_MIN_SIZE else asked;
      && (Product32(size, count) != 0 && PoolSize(size, count) == rounded <==> asked < 0x1_0000_0000)
      && (asked >= 0x1_0000_0000 ==> PoolSize(size, count) < asked)
  {
    var asked: nat := size * count;
    assert 0 < asked;
    assert ToU32(asked) == asked % 0x1_0000_0000;
  }

  /** A number written into the configuration is the one in use, unless it is negative or does not fit. */
  lemma NumberInUse(config: ConfigMap, key: string, n: int, size: u32)
    requires key in config && config[key] == Written(n)
    requires 0 <= n < 0x8000_0000
    ensures String2Num(config, key, size) == Some(n)
  {
    StoiReadsBack(n);
  }

  /** Two accepted numbers whose product is a multiple of 2^32: the client connects and gets no pool. */
  lemma WrapsToNoPool(config: ConfigMap)
    requires SEGMENT_SIZE_KEY in config && config[SEGMENT_SIZE_KEY] == Written(1048576)
    requires SEGMENT_COUNT_KEY in config && config[SEGMENT_COUNT_KEY] == Written(4096)
    ensures SegmentSize(config) == Some(1048576) && SegmentCount(config) == Some(4096)
    ensures Product32(1048576, 4096) == 0
  {
    NumberInUse(config, SEGMENT_SIZE_KEY, 1048576, DEFAULT_SEGMENT_SIZE);
    NumberInUse(config, SEGMENT_COUNT_KEY, 4096, DEFAULT_SEGMENT_COUNT);
  }

  /** The largest cached tier is at most the segment size and more than half of it. */
  lemma TopTier(size: u32)
    requires size >= MR_MIN_SIZE
    ensures var c := BitLength(size / MR_MIN_SIZE);
      && c > 0
      && MR_MIN_SIZE * Pow2(c - 1) <= size < 2 * (MR_MIN_SIZE * Pow2(c - 1))
  {
    BitLengthPowers(size / MR_MIN_SIZE);
    TierBounds(size, Pow2(BitLength(size / MR_MIN_SIZE) - 1));
  }

  lemma TierBounds(size: nat, p: nat)
    requires p <= size / MR_MIN_SIZE < 2 * p
    ensures MR_MIN_SIZE * p <= size < 2 * (MR_MIN_SIZE * p)
  {
  }

  /** A negative segment size or count is refused: as a 32-bit unsigned value it exceeds both bounds. */
  lemma NegativeRefused(config: ConfigMap, key: string)
    requires key in config && Stoi(config[key]).Number? && Stoi(config[key]).n < 0
    ensures key == SEGMENT_SIZE_KEY ==> SegmentSize(config).None?
    ensures key == SEGMENT_COUNT_KEY ==> SegmentCount(config).None?
  {
    var n: int := Stoi(config[key]).n;
    assert ToU32(n) == n + 0x1_0000_0000;
  }

  /**
   The server side reads the same keys without that bound, and with the same default: there a
   number is taken as it converts, so the segment size in force equals the number written exactly
   when it is not negative.
   */
  lemma ServerSegmentSize(config: ConfigMap, n: i32)
    ensures var size := String2Num(config, "server.create.segsize", 65536);
      if "server.create.segsize" !in config then size == Some(65536)
      else
        && (size.None? <==> !Stoi(config["server.create.segsize"]).Number?)
        && (Stoi(config["server.create.segsize"]) == Number(n) ==>
              && (size.value == n <==> 0 <= n)
              && (n < 0 ==> size.value == 0x1_0000_0000 + n))
  {
  }
}
