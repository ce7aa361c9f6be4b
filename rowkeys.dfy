/** The row-key layout both feeds share, `<reversed id>/<week>/<shop id>`: the key ranges
    the bind functions plan from the requested ids, and the decoding of a row key back
    into its id and shop id. */
module RowKeys {
  import opened Wrappers
  import opened Decimal
  import opened Bigtable

  predicate IsInt32(x: int) { -0x8000_0000 <= x < 0x8000_0000 }
  predicate IsInt64(x: int) { -0x8000_0000_0000_0000 <= x < 0x8000_0000_0000_0000 }

  /** The decimal rendering of an id, reversed: the first segment of its rows' keys. */
  function KeyPrefix(id: int): (p: string)
    ensures |p| > 0
    ensures forall k :: 0 <= k < |p| ==> p[k] != '/'
  {
    var s := IntToDecimal(id);
    var p := Reverse(s);
    assert forall k :: 0 <= k < |p| ==> p[k] == s[|s| - 1 - k];
    p
  }

  /** The closed range planned for one id and a week window. */
  function RangeFor(id: int, weekStart: int, weekEnd: int): RowRange
  {
    Closed(KeyPrefix(id) + "/" + IntToDecimal(weekStart) + "/",
           KeyPrefix(id) + "/" + IntToDecimal(weekEnd) + "0")
  }

  /** The bind loop: one range per requested id, in the order given, duplicates kept. */
  method PlanRanges(ids: seq<int>, weekStart: int, weekEnd: int) returns (ranges: seq<RowRange>)
    ensures |ranges| == |ids|
    ensures forall i :: 0 <= i < |ids| ==> ranges[i] == RangeFor(ids[i], weekStart, weekEnd)
  {
    var ws := IntToDecimal(weekStart);
    var we := IntToDecimal(weekEnd);
    ranges := [];
    for i := 0 to |ids|
      invariant |ranges| == i
      invariant forall j :: 0 <= j < i ==> ranges[j] == RangeFor(ids[j], weekStart, weekEnd)
    {
      var prefix := Reverse(IntToDecimal(ids[i]));
      ranges := ranges + [Closed(prefix + "/" + ws + "/", prefix + "/" + we + "0")];
    }
  }

  /** Every key inside the range of an id starts with that id's prefix and a '/'. */
  lemma KeyInRangeHasPrefix(id: int, weekStart: int, weekEnd: int, key: string)
    requires InRange(key, RangeFor(id, weekStart, weekEnd))
    ensures KeyPrefix(id) + "/" <= key
  {
    var r := RangeFor(id, weekStart, weekEnd);
    var p := KeyPrefix(id) + "/";
    assert r.start == p + (IntToDecimal(weekStart) + "/");
    assert r.end == p + (IntToDecimal(weekEnd) + "0");
    BetweenSharesPrefix(p, r.start, key, r.end);
  }

  /** The ranges of distinct ids are disjoint: a key in two planned ranges belongs to
      one id. This works because an id's prefix never contains '/'. */
  lemma RangesDisjoint(id1: int, ws1: int, we1: int, id2: int, ws2: int, we2: int, key: string)
    requires InRange(key, RangeFor(id1, ws1, we1))
    requires InRange(key, RangeFor(id2, ws2, we2))
    ensures id1 == id2
  {
    KeyInRangeHasPrefix(id1, ws1, we1, key);
    KeyInRangeHasPrefix(id2, ws2, we2, key);
    var r1, r2 := KeyPrefix(id1), KeyPrefix(id2);
    FirstSlashAfter(r1, key);
    FirstSlashAfter(r2, key);
    assert r1 == key[..FirstSlash(key)] == r2;
    ReverseInjective(IntToDecimal(id1), IntToDecimal(id2));
    IntToDecimalInjective(id1, id2);
  }

  /** A key that opens with a slash-free segment and a '/' has its first '/' there. */
  lemma {:induction false} FirstSlashAfter(r: string, key: string)
    requires forall k :: 0 <= k < |r| ==> r[k] != '/'
    requires r + "/" <= key
    ensures FirstSlash(key) == |r|
    decreases |r|
  {
    if r != [] {
      assert (r + "/")[1..] == r[1..] + "/";
      FirstSlashAfter(r[1..], key[1..]);
    }
  }

  /** Of two different numbers with equally long renderings, the smaller one's rendering
      has the smaller character where they first differ. */
  lemma {:induction false} DecimalOrder(a: nat, b: nat) returns (k: nat)
    requires a < b
    requires |NatToDecimal(a)| == |NatToDecimal(b)|
    ensures k < |NatToDecimal(a)|
    ensures NatToDecimal(a)[..k] == NatToDecimal(b)[..k]
    ensures NatToDecimal(a)[k] < NatToDecimal(b)[k]
    decreases a
  {
    var sa, sb := NatToDecimal(a), NatToDecimal(b);
    if b < 10 {
      k := 0;
    } else {
      assert a >= 10;
      var ha, hb := NatToDecimal(a / 10), NatToDecimal(b / 10);
      assert sa == ha + [DigitChar(a % 10)];
      assert sb == hb + [DigitChar(b % 10)];
      if a / 10 < b / 10 {
        k := DecimalOrder(a / 10, b / 10);
        assert sa[..k] == ha[..k] && sb[..k] == hb[..k];
      } else {
        k := |ha|;
        assert sa[..k] == ha && sb[..k] == hb;
        assert DigitValue(sa[k]) < DigitValue(sb[k]);
      }
    }
  }

  /** A key whose week is at or above `ws` (same number of digits) is at or above the
      range's lower bound. */
  lemma WeekKeyAboveStart(id: int, ws: nat, we: nat, w: nat, shop: string)
    requires ws <= w
    requires |NatToDecimal(ws)| == |NatToDecimal(w)|
    ensures KeyLe(RangeFor(id, ws, we).start, KeyPrefix(id) + "/" + NatToDecimal(w) + "/" + shop)
  {
    var p := KeyPrefix(id) + "/";
    var sa, sb := NatToDecimal(ws), NatToDecimal(w);
    if ws == w {
      assert p + sa + "/" <= p + sb + "/" + shop;
      PrefixKeyLe(p + sa + "/", p + sb + "/" + shop);
    } else {
      var k := DecimalOrder(ws, w);
      ConcatDiffKeyLe(p, sa, "/", sb, "/" + shop, k);
      assert p + sb + ("/" + shop) == p + sb + "/" + shop;
    }
  }

  /** The "0" fence: because '/' sorts before '0', a key whose week is at or below `we`
      (same number of digits) is at or below the range's upper bound, whatever shop id
      follows. */
  lemma WeekKeyBelowEnd(id: int, ws: nat, we: nat, w: nat, shop: string)
    requires w <= we
    requires |NatToDecimal(w)| == |NatToDecimal(we)|
    ensures KeyLe(KeyPrefix(id) + "/" + NatToDecimal(w) + "/" + shop, RangeFor(id, ws, we).end)
  {
    var p := KeyPrefix(id) + "/";
    var sw, se := NatToDecimal(w), NatToDecimal(we);
    if w == we {
      ConcatDiffKeyLe(p + sw, "/", shop, "0", "", 0);
      assert p + sw + "0" + "" == p + sw + "0";
    } else {
      var k := DecimalOrder(w, we);
      ConcatDiffKeyLe(p, sw, "/" + shop, se, "0", k);
      assert p + sw + ("/" + shop) == p + sw + "/" + shop;
    }
  }

  /** The range of (ws, we) holds every row key of every week w with ws <= w <= we,
      provided the three weeks are written with the same number of digits. */
  lemma WeekKeysInRange(id: int, ws: nat, we: nat, w: nat, shop: string)
    requires ws <= w <= we
    requires |NatToDecimal(ws)| == |NatToDecimal(w)| == |NatToDecimal(we)|
    ensures InRange(KeyPrefix(id) + "/" + NatToDecimal(w) + "/" + shop, RangeFor(id, ws, we))
  {
    WeekKeyAboveStart(id, ws, we, w, shop);
    WeekKeyBelowEnd(id, ws, we, w, shop);
  }

  /** The position of the first '/' (`find_first_of`), or the length when there is none:
      `substr(0, npos)` then takes the whole key. */
  function FirstSlash(s: string): (n: nat)
    ensures n <= |s|
    ensures forall k :: 0 <= k < n ==> s[k] != '/'
    ensures n < |s| ==> s[n] == '/'
  {
    if s == [] || s[0] == '/' then 0 else 1 + FirstSlash(s[1..])
  }

  /** The position of the last '/' (`find_last_of`), or -1 when there is none: `npos + 1`
      wraps to 0, so `substr` then takes the whole key. */
  function LastSlash(s: string): (n: int)
    ensures -1 <= n < |s|
    ensures forall k :: n < k < |s| ==> s[k] != '/'
    ensures n >= 0 ==> s[n] == '/'
    decreases |s|
  {
    if s == [] then -1
    else if s[|s| - 1] == '/' then |s| - 1
    else LastSlash(s[..|s| - 1])
  }

  /** The id decoded from a key, before any narrowing: `stoull` of the reversed first
      segment. */
  function KeyId(key: string): Option<nat>
  {
    StoUL(Reverse(key[..FirstSlash(key)]))
  }

  /** The shop id decoded from a key: `stoul` of the segment after the last '/', narrowed
      to `uint32_t` by `Value::UINTEGER`. */
  function KeyShop(key: string): (r: Option<nat>)
    ensures r.Some? ==> r.value < TWO_32
  {
    match StoUL(key[LastSlash(key) + 1..])
    case Some(v) => Some(ToUint32(v))
    case None => None
  }

  /** Decoding a key reverses planning: every key in the range planned for a
      non-negative id decodes to that id. */
  lemma KeyIdOfPlannedId(id: int, weekStart: int, weekEnd: int, key: string)
    requires 0 <= id < TWO_64
    requires InRange(key, RangeFor(id, weekStart, weekEnd))
    ensures KeyId(key) == Some(id)
  {
    KeyInRangeHasPrefix(id, weekStart, weekEnd, key);
    var p := KeyPrefix(id);
    FirstSlashAfter(p, key);
    assert key[..FirstSlash(key)] == p;
    ReverseInvolution(NatToDecimal(id));
    StoULOfDecimal(id, "");
    assert NatToDecimal(id) + "" == NatToDecimal(id);
  }

  /** A negative id plans a prefix that decodes to the id plus 2^64: `strtoul` accepts
      the '-' and wraps. */
  lemma KeyIdOfNegativeId(id: int, weekStart: int, weekEnd: int, key: string)
    requires -(TWO_64 as int) < id < 0
    requires InRange(key, RangeFor(id, weekStart, weekEnd))
    ensures KeyId(key) == Some(TWO_64 + id)
  {
    KeyInRangeHasPrefix(id, weekStart, weekEnd, key);
    var p := KeyPrefix(id);
    FirstSlashAfter(p, key);
    assert key[..FirstSlash(key)] == p;
    ReverseInvolution(IntToDecimal(id));
    StoULOfNegative(-id);
  }

  /** The shop id is read from the last segment, whatever comes before it. */
  lemma KeyShopOfDecimal(front: string, shop: nat)
    requires shop < TWO_64
    ensures KeyShop(front + "/" + NatToDecimal(shop)) == Some(ToUint32(shop))
  {
    var d := NatToDecimal(shop);
    var key := front + "/" + d;
    assert key[|front|] == '/';
    assert forall k :: |front| < k < |key| ==> key[k] == d[k - |front| - 1];
    assert LastSlash(key) == |front|;
    assert key[|front| + 1..] == d;
    StoULOfDecimal(shop, "");
    assert d + "" == d;
  }
}
