/** The types every component uses. */
module Common {
  datatype Option<+T> = None | Some(value: T)
  datatype Result<+T, +E> = Ok(value: T) | Err(error: E)

  type Byte = b: int | 0 <= b < 256
  type Bytes = seq<Byte>

  function Digit(n: int): char
    requires 0 <= n < 10
  {
    '0' + n as char
  }

  /** A number in decimal, without padding. */
  function Decimal(n: nat): string {
    if n < 10 then [Digit(n)] else Decimal(n / 10) + [Digit(n % 10)]
  }

  /** Where in a sequence something holds. */
  ghost function Positions<T>(s: seq<T>, holds: T -> bool): set<int> {
    set i | 0 <= i < |s| && holds(s[i])
  }

  lemma PositionsSnoc<T>(s: seq<T>, x: T, holds: T -> bool)
    ensures |Positions(s + [x], holds)| == |Positions(s, holds)| + (if holds(x) then 1 else 0)
  {
    assert Positions(s + [x], holds) == Positions(s, holds) + (if holds(x) then {|s|} else {});
  }

  lemma {:induction false} PositionsCons<T>(x: T, s: seq<T>, holds: T -> bool)
    ensures |Positions([x] + s, holds)| == (if holds(x) then 1 else 0) + |Positions(s, holds)|
    decreases |s|
  {
    if s == [] {
      PositionsSnoc([], x, holds);
      assert [] + [x] == [x] + s && Positions(s, holds) == {};
    } else {
      var last := |s| - 1;
      PositionsCons(x, s[..last], holds);
      PositionsSnoc([x] + s[..last], s[last], holds);
      PositionsSnoc(s[..last], s[last], holds);
      assert s[..last] + [s[last]] == s && ([x] + s[..last]) + [s[last]] == [x] + s;
    }
  }

  /** Taking one element from what is left to what is done. */
  lemma OneLess<T>(left: set<T>, done: set<T>, x: T)
    requires left !! done && x in left
    ensures x !in done && (left - {x}) !! (done + {x}) && (left - {x}) + (done + {x}) == left + done
    ensures |left - {x}| < |left|
  {
  }
}
