/** The test account mixin (org.qi4j.test.entity.AccountMixin): it adds to
    and removes from the composite's Integer balance property. */
module AccountMixin {
  import opened Results
  import opened PropertyInstance

  const TwoTo31: int := 0x8000_0000
  const TwoTo32: int := 0x1_0000_0000

  /** A Java int. */
  predicate IsInt32(x: int) {
    -TwoTo31 <= x < TwoTo31
  }

  /** Java int arithmetic: the result wraps around modulo 2^32 into the int
      range. */
  function Wrap32(x: int): (r: int)
    ensures IsInt32(r)
    ensures (r - x) % TwoTo32 == 0
  {
    (x + TwoTo31) % TwoTo32 - TwoTo31
  }

  /** Unboxing a null balance throws NullPointerException. */
  datatype AccountError = NullBalance

  /** add(amount): balance.set(balance.get() + amount). */
  function Add(balance: Property<int>, amount: int): (r: Result<Property<int>, AccountError>)
    requires IsInt32(amount)
    ensures r.Err? <==> Get(balance).None?
    ensures r.Ok? ==> r.value.info == balance.info && Get(r.value) == Some(Wrap32(Get(balance).value + amount))
  {
    match Get(balance)
    case None => Err(NullBalance)
    case Some(b) => Ok(Set(balance, Some(Wrap32(b + amount))).0)
  }

  /** remove(amount): balance.set(balance.get() - amount). */
  function Remove(balance: Property<int>, amount: int): (r: Result<Property<int>, AccountError>)
    requires IsInt32(amount)
    ensures r.Err? <==> Get(balance).None?
    ensures r.Ok? ==> r.value.info == balance.info && Get(r.value) == Some(Wrap32(Get(balance).value - amount))
  {
    match Get(balance)
    case None => Err(NullBalance)
    case Some(b) => Ok(Set(balance, Some(Wrap32(b - amount))).0)
  }

  /** Wrapping depends only on the value modulo 2^32. */
  lemma Wrap32Congruent(x: int, y: int)
    requires (x - y) % TwoTo32 == 0
    ensures Wrap32(x) == Wrap32(y)
  {
    var q := (x - y) / TwoTo32;
    assert x == y + TwoTo32 * q;
    assert (x + TwoTo31) % TwoTo32 == (y + TwoTo31 + TwoTo32 * q) % TwoTo32;
    ModAddMultiple(y + TwoTo31, q);
  }

  lemma ModAddMultiple(a: int, q: int)
    ensures (a + TwoTo32 * q) % TwoTo32 == a % TwoTo32
  {
    var r := a % TwoTo32;
    var d := a / TwoTo32;
    assert a == TwoTo32 * d + r;
    assert a + TwoTo32 * q == TwoTo32 * (d + q) + r;
  }

  /** add(a) then remove(a) restores an int balance, wrap-around included. */
  lemma AddThenRemoveRestores(balance: Property<int>, amount: int)
    requires IsInt32(amount)
    requires Get(balance).Some? && IsInt32(Get(balance).value)
    ensures Add(balance, amount).Ok?
    ensures Remove(Add(balance, amount).value, amount) == Ok(balance)
  {
    var b := Get(balance).value;
    var w := Wrap32(b + amount);
    Wrap32Congruent(w - amount, b);
    assert Wrap32(b) == b;
  }
}
