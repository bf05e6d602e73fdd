/** Vocabulary shared by every module of the model. */
module Types {
  newtype byte = b: int | 0 <= b < 256

  type Bytes = seq<byte>
  type Digest = Bytes

  /** Paths are relative to the backing root, as in the inode and CAS tables. */
  type Path = string

  type Sid = nat
  type Fh = nat
  type FileId = nat
  type Time = int

  datatype Option<+T> = None | Some(value: T)

  datatype Mode = RdOnly | WrOnly | RdWr

  function Get<K, V>(m: map<K, V>, k: K): Option<V> {
    if k in m then Some(m[k]) else None
  }

  /** Digest `d` tells the contents in `s` apart: no two different ones collide. */
  ghost predicate Separates(d: Bytes -> Digest, s: iset<Bytes>) {
    forall a, b | a in s && b in s && d(a) == d(b) :: a == b
  }

  /** A set that `f` maps one-to-one into `t` is no larger than `t`. */
  lemma {:induction false} InjectionBoundsSize<A, B>(s: set<A>, t: set<B>, f: A -> B)
    requires forall a | a in s :: f(a) in t
    requires forall a, b | a in s && b in s && f(a) == f(b) :: a == b
    ensures |s| <= |t|
    decreases s
  {
    if s == {} {
    } else {
      var a :| a in s;
      InjectionBoundsSize(s - {a}, t - {f(a)}, f);
      assert |s - {a}| == |s| - 1;
      assert |t - {f(a)}| == |t| - 1;
    }
  }
}
