/** Small value types shared by the cycle and scenario managers. */
module Common {

  datatype Option<+T> = None | Some(value: T)

  /** Success value or one of the managers' rejections. */
  datatype Result<+R, +E> = Success(value: R) | Failure(error: E)

  /** An entity identifier `<PREFIX>_<name>_<uuid>`; the random uuid part
      is abstracted to a serial number handed out by the owning manager. */
  datatype EntityId = EntityId(prefix: string, name: string, serial: nat)

  /** Python's truthiness of an optional string: `None` and `""` are false. */
  predicate Truthy(s: Option<string>)
  {
    s.Some? && s.value != ""
  }

  /** `xs.remove(x)` without the error: `xs` without its first element
      equal to `x`, or `xs` itself when there is none. */
  function RemoveFirst<T(==)>(xs: seq<T>, x: T): (r: seq<T>)
    ensures x !in xs ==> r == xs
    ensures multiset(r) == multiset(xs) - multiset{x}
  {
    if xs == [] then []
    else if xs[0] == x then
      assert xs == [x] + xs[1..];
      xs[1..]
    else
      assert xs == [xs[0]] + xs[1..];
      [xs[0]] + RemoveFirst(xs[1..], x)
  }

  /** The element removed is the first `x`; the others keep their order. */
  lemma {:induction false} RemoveFirstAt<T>(xs: seq<T>, x: T, i: nat)
    requires i < |xs| && xs[i] == x && x !in xs[..i]
    ensures RemoveFirst(xs, x) == xs[..i] + xs[i + 1..]
    decreases i
  {
    if i > 0 {
      assert xs[0] in xs[..i];
      assert xs[1..][..i - 1] == xs[1..i];
      RemoveFirstAt(xs[1..], x, i - 1);
      assert xs[..i] == [xs[0]] + xs[1..i];
      assert xs[1..][i..] == xs[i + 1..];
    }
  }

  /** Two maps with the same keys and the same value at every key are
      equal. */
  lemma MapsAgree<K, V>(a: map<K, V>, b: map<K, V>)
    requires a.Keys == b.Keys
    requires forall k :: k in a ==> a[k] == b[k]
    ensures a == b
  {
  }
}
