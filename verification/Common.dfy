/** Shared small types: optional values, machine integers, and texts within texts. */
module Common {
  datatype Option<+T> = None | Some(value: T) {
    function GetOr(default: T): T {
      match this
      case Some(v) => v
      case None => default
    }
  }

  const U32_MAX: nat := 0xFFFF_FFFF
  const U64_MAX: nat := 0xFFFF_FFFF_FFFF_FFFF

  type u32 = n: nat | n <= U32_MAX
  type u64 = n: nat | n <= U64_MAX

  function Min(a: nat, b: nat): nat { if a < b then a else b }

  predicate Contains(s: string, sub: string) { exists i :: 0 <= i <= |s| && sub <= s[i..] }
}
