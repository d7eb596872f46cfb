/**
  Named squares. A square is the index rank * 8 + file, with A1 = 0 and
  H8 = 63; this row-major numbering is what the start ranks 8..15 (white
  pawns) and 48..55 (black pawns) of the engines imply.
 */
module Positions {

  const A1: nat := 0
  const B1: nat := 1
  const C1: nat := 2
  const D1: nat := 3
  const E1: nat := 4
  const F1: nat := 5
  const G1: nat := 6
  const H1: nat := 7
  const A2: nat := 8
  const B2: nat := 9
  const C2: nat := 10
  const D2: nat := 11
  const E2: nat := 12
  const F2: nat := 13
  const G2: nat := 14
  const H2: nat := 15
  const A7: nat := 48
  const B7: nat := 49
  const C7: nat := 50
  const D7: nat := 51
  const E7: nat := 52
  const F7: nat := 53
  const G7: nat := 54
  const H7: nat := 55
  const A8: nat := 56
  const B8: nat := 57
  const C8: nat := 58
  const D8: nat := 59
  const E8: nat := 60
  const F8: nat := 61
  const G8: nat := 62
  const H8: nat := 63
}
