// What several models share.

module Basics {
  type Byte = x: int | 0 <= x < 256

  function Least(a: int, b: int): int { if a < b then a else b }
}
