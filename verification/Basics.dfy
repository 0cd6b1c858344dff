/** The option type and the fixed-width integer conversions shared by the models. */
module Basics {
  datatype Option<+T> = None | Some(value: T)

  /** What becomes of a call: it is carried out, it fails, or it leaves its buffer or table, of which nothing is said
      beyond the point where that happens. */
  datatype Ending = Done | Refused | Overrun

  const INT32_MAX := 0x7fff_ffff
  const TWO_TO_THE_8 := 0x100
  const TWO_TO_THE_32 := 0x1_0000_0000

  type Uint8 = x: int | 0 <= x < TWO_TO_THE_8
  type Uint32 = x: int | 0 <= x < TWO_TO_THE_32

  /** Conversion to a 32-bit signed integer: keeps the low 32 bits. */
  function ToInt32(x: int): (r: int)
    ensures -INT32_MAX - 1 <= r <= INT32_MAX
    ensures r == x <==> -INT32_MAX - 1 <= x <= INT32_MAX
  {
    var low := x % TWO_TO_THE_32;
    if low <= INT32_MAX then low else low - TWO_TO_THE_32
  }

  /** Conversion to a 32-bit unsigned integer: keeps the low 32 bits. */
  function ToUint32(x: int): (r: int)
    ensures 0 <= r < TWO_TO_THE_32
    ensures r == x <==> 0 <= x < TWO_TO_THE_32
  {
    x % TWO_TO_THE_32
  }

  /** Both conversions change a number by a multiple of 2 to the 32. */
  lemma {:induction false} ConversionsWrap(x: int)
    ensures (x - ToInt32(x)) % 0x1_0000_0000 == 0 && (x - ToUint32(x)) % 0x1_0000_0000 == 0
  {
    var q := x / TWO_TO_THE_32;
    assert x == q * TWO_TO_THE_32 + ToUint32(x);
    assert x - ToInt32(x) == q * TWO_TO_THE_32 || x - ToInt32(x) == (q + 1) * TWO_TO_THE_32;
  }

  /** `m` after erasing key `k`. */
  function Without<V>(m: map<int, V>, k: int): map<int, V> {
    map j | j in m && j != k :: m[j]
  }

  lemma {:induction false} SmallestExists(keys: set<int>) returns (m: int)
    requires exists k :: k in keys
    ensures m in keys && forall j :: j in keys ==> m <= j
    decreases |keys|
  {
    m :| m in keys;
    var first, rest := m, keys - {m};
    if exists k :: k in rest {
      var least := SmallestExists(rest);
      m := if least < first then least else first;
    }
    forall j | j in keys
      ensures m <= j
    {
      assert j == first || j in rest;
    }
  }

  /** The first key in the order of an ordered map. */
  function Smallest(keys: set<int>): (k: int)
    requires exists k :: k in keys
    ensures k in keys && forall j :: j in keys ==> k <= j
  {
    assert exists k :: k in keys && forall j :: j in keys ==> k <= j by {
      var m := SmallestExists(keys);
    }
    var k :| k in keys && forall j :: j in keys ==> k <= j;
    k
  }

  lemma {:induction false} HasKeyUnlessEmpty<V>(m: map<int, V>)
    ensures m == map[] || exists k :: k in m.Keys
  {
    if forall k :: k !in m.Keys {
      assert m == map[];
    }
  }
}
