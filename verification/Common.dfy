/** Datatypes shared by every component, the abstract law of the hash, two facts
    about products, and the size of a directory. */
module Common {

  datatype Option<+T> = None | Some(value: T)

  /** A returned value, or the name of the exception that the program raises. */
  datatype Result<+T> = Ok(value: T) | Err(error: string)

  type Byte = b: int | 0 <= b < 256

  type Bytes = seq<Byte>

  /** SHA-256 (FIPS 180-4) is a parameter wherever it is used.  Lemmas that need
      distinct inputs to have distinct digests say so with this hypothesis. */
  ghost predicate CollisionFree<A(!new), D(!new)>(hash: A -> D) {
    forall x, y :: hash(x) == hash(y) ==> x == y
  }

  /** `n * x`, by repeated addition. */
  ghost function Multiple(n: nat, x: real): real {
    if n == 0 then 0.0 else Multiple(n - 1, x) + x
  }

  lemma {:induction false} MultipleIsProduct(n: nat, x: real)
    ensures Multiple(n, x) == n as real * x
  {
    if n > 0 {
      MultipleIsProduct(n - 1, x);
      assert n as real * x == (n - 1) as real * x + x;
    }
  }

  lemma PositiveProduct(a: real, b: real, product: real)
    requires a > 0.0 && b > 0.0 && product == a * b
    ensures product > 0.0
  {
  }

  /** Total size of the files of a directory. */
  ghost function Size(files: map<string, Bytes>): nat
    decreases |files|
  {
    if files == map[] then 0
    else
      var n :| n in files;
      |files[n]| + Size(files - {n})
  }

  lemma {:induction false} SizeWithout(files: map<string, Bytes>, n: string)
    requires n in files
    ensures Size(files) == |files[n]| + Size(files - {n})
    decreases |files|
  {
    var m :| m in files && Size(files) == |files[m]| + Size(files - {m});
    if m != n {
      SizeWithout(files - {m}, n);
      SizeWithout(files - {n}, m);
      assert files - {m} - {n} == files - {n} - {m};
    }
  }
}
