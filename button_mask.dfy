/** The pointer-button bitmask `mMouseState`: bit `b` is set while button
    `b` is held. */
module ButtonMask {

  /** Bit `b` of the mask. */
  function Held(m: bv32, b: bv32): bool
    requires b < 32
  {
    (m >> b) & 1 == 1
  }

  /** `mask |= 1 << button`: bit `button` becomes set, every other bit
      keeps its value. */
  function Press(m: bv32, b: bv32): (r: bv32)
    requires b < 32
    ensures forall j: bv32 :: j < 32 ==> (Held(r, j) <==> j == b || Held(m, j))
  {
    forall j: bv32 | j < 32 ensures Held(m | (1 << b), j) <==> j == b || Held(m, j) {
      OrBit(m, b, j);
    }
    m | (1 << b)
  }

  /** `mask &= ~(1 << button)`: bit `button` becomes clear, every other bit
      keeps its value. */
  function Lift(m: bv32, b: bv32): (r: bv32)
    requires b < 32
    ensures forall j: bv32 :: j < 32 ==> (Held(r, j) <==> j != b && Held(m, j))
  {
    forall j: bv32 | j < 32 ensures Held(m & !(1 << b), j) <==> j != b && Held(m, j) {
      AndNotBit(m, b, j);
    }
    m & !(1 << b)
  }

  lemma OrBit(m: bv32, b: bv32, j: bv32)
    requires b < 32 && j < 32
    ensures Held(m | (1 << b), j) <==> j == b || Held(m, j)
  {
  }

  lemma AndNotBit(m: bv32, b: bv32, j: bv32)
    requires b < 32 && j < 32
    ensures Held(m & !(1 << b), j) <==> j != b && Held(m, j)
  {
  }

  /** Releasing a button undoes pressing it when it was not held before. */
  lemma LiftUndoesPress(m: bv32, b: bv32)
    requires b < 32 && !Held(m, b)
    ensures Lift(Press(m, b), b) == m
  {
  }

  /** The mask after button `b` goes down (`down`) or up. */
  function WithButton(m: bv32, b: nat, down: bool): (r: bv32)
    requires b < 32
    ensures forall j: bv32 :: j < 32 ==> (Held(r, j) <==> if j == b as bv32 then down else Held(m, j))
  {
    if down then Press(m, b as bv32) else Lift(m, b as bv32)
  }
}
