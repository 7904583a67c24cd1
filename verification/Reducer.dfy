/** The three ways of working modulo a number m, as the exponentiation routines use them. */
module Reducer {
  import opened Numbers
  import opened Digits
  import opened BigIntegers

  datatype Reducer =
    | Classic(m: BigInteger)
    | Montgomery(m: BigInteger, mp: int, mpl: int, mph: int, um: int, mt2: int)
    | Barrett(m: BigInteger, r2: BigInteger, q3: BigInteger, mu: BigInteger)
  {
    /** The objects a reduction writes besides its argument. */
    ghost function Scratch(): set<BigInteger> {
      if Barrett? then {r2, q3} else {}
    }

    /** The objects a reduction only reads. */
    ghost function Fixed(): set<BigInteger> {
      if Barrett? then {m, mu} else {m}
    }

    /** v stands for the residue class of a: itself, or for Montgomery numbers a * DV^m.t. */
    ghost predicate Rep(v: int, a: int)
      requires Valid()
      reads Fixed()
    {
      0 <= v < m.Value() && Cong(v, if Montgomery? then Place(a, m.t) else a, m.Value())
    }

    ghost predicate Valid()
      reads Fixed()
    {
      && m.Valid() && m.Value() > 0
      && (Montgomery? ==>
          && m.Value() % 2 == 1 && m.t >= 1
          && 0 < mp < DV && (m.digits[0] * mp + 1) % DV == 0
          && mpl == mp % 0x8000 && mph == mp / 0x8000 && um == 0x1fff && mt2 == 2 * m.t)
      && (Barrett? ==>
          && m !in Scratch() && mu !in Scratch() && r2 != q3
          && m.t + 3 <= DV
          && mu.Valid() && mu.Value() == Place(1, 2 * m.t) / m.Value())
    }
  }
}
