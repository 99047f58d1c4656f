/** Lookup tables of 256 entries, written as sixteen rows of sixteen. */
module Tables {
  /** The k-th of sixteen values; the tables below are sixteen such rows. */
  function Pick<T>(k: bv8, v: T, v1: T, v2: T, v3: T, v4: T, v5: T, v6: T, v7: T,
                   v8: T, v9: T, va: T, vb: T, vc: T, vd: T, ve: T, vf: T): T {
    match k
    case 0 => v case 1 => v1 case 2 => v2 case 3 => v3 case 4 => v4 case 5 => v5 case 6 => v6 case 7 => v7
    case 8 => v8 case 9 => v9 case 10 => va case 11 => vb case 12 => vc case 13 => vd case 14 => ve case _ => vf
  }
}
