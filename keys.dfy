/** Byte strings as NEO storage keys: the fixed-width types the contract uses, the order in
    which storage iterates keys, and the prefix scan `StorageMap.Find`. */
module Keys {

  newtype byte = x: int | 0 <= x < 0x100

  /** A NEO `ByteString`. */
  type Bytes = seq<byte>

  /** A NEO `UInt160` script hash (an account): always 20 bytes. */
  type UInt160 = b: Bytes | |b| == 20 witness seq(20, _ => 0)

  /** The output of SHA-256, which the contract uses for every generated identifier: 32 bytes. */
  type Hash32 = b: Bytes | |b| == 32 witness seq(32, _ => 0)

  /** A .NET `UInt16`. */
  type U16 = x: int | 0 <= x < 0x1_0000

  datatype Option<T> = None | Some(value: T)

  /** `UInt160.Zero`, the default account of every record field. */
  function Zero160(): UInt160 { seq(20, _ => 0) }

  // One-byte prefixes of the contract's storage maps (DAOCakeContract.cs:21-31). A key of map P
  // is stored as P followed by the key, so maps with different prefixes never share a key.
  const PrefixTransactions: byte := 0x00
  const PrefixOrgTransactions: byte := 0x01
  const PrefixVotes: byte := 0x05
  const PrefixTransVotes: byte := 0x06
  const PrefixOrgs: byte := 0xAA
  const PrefixOrgMembers: byte := 0xAB
  const PrefixMembers: byte := 0xAC
  const PrefixMemberOrgs: byte := 0xAD
  const PrefixUserMemberLookup: byte := 0x90

  /** The raw storage key under which map `prefix` keeps `key`. */
  function StorageKey(prefix: byte, key: Bytes): Bytes
  {
    [prefix] + key
  }

  /** Raw keys coincide only for the same map and the same key: maps with different prefixes never
      collide, which is why the model keeps one map per prefix. */
  lemma SeparateStores(p: byte, q: byte, k1: Bytes, k2: Bytes)
    ensures StorageKey(p, k1) == StorageKey(q, k2) <==> p == q && k1 == k2
  {
    if StorageKey(p, k1) == StorageKey(q, k2) {
      assert StorageKey(p, k1)[0] == StorageKey(q, k2)[0];
      assert k1 == StorageKey(p, k1)[1..] && k2 == StorageKey(q, k2)[1..];
    }
  }

  // ---------------------------------------------------------------------------------------------
  // Key order

  /** `a` comes strictly before `b` in storage order: byte-wise comparison, a proper prefix first. */
  predicate Below(a: Bytes, b: Bytes)
    decreases |a|
  {
    |b| > 0 && (|a| == 0 || a[0] < b[0] || (a[0] == b[0] && Below(a[1..], b[1..])))
  }

  lemma {:induction false} BelowIrreflexive(a: Bytes)
    ensures !Below(a, a)
    decreases |a|
  {
    if |a| > 0 {
      BelowIrreflexive(a[1..]);
    }
  }

  lemma {:induction false} BelowTransitive(a: Bytes, b: Bytes, c: Bytes)
    requires Below(a, b) && Below(b, c)
    ensures Below(a, c)
    decreases |a|
  {
    if |a| > 0 && a[0] == b[0] && b[0] == c[0] {
      BelowTransitive(a[1..], b[1..], c[1..]);
    }
  }

  lemma {:induction false} BelowTotal(a: Bytes, b: Bytes)
    requires a != b
    ensures Below(a, b) || Below(b, a)
    decreases |a|
  {
    if |a| > 0 && |b| > 0 && a[0] == b[0] {
      assert a == [a[0]] + a[1..] && b == [b[0]] + b[1..];
      BelowTotal(a[1..], b[1..]);
    }
  }

  /** `g` is the key of `s` that storage iterates last. */
  ghost predicate IsGreatest(s: set<Bytes>, g: Bytes)
  {
    g in s && forall x :: x in s && x != g ==> Below(x, g)
  }

  /** `l` is the key of `s` that storage iterates first. */
  predicate IsLeast(s: set<Bytes>, l: Bytes)
  {
    l in s && forall x :: x in s && x != l ==> Below(l, x)
  }

  lemma {:induction false} GreatestExists(s: set<Bytes>)
    requires s != {}
    ensures exists g :: IsGreatest(s, g)
    decreases |s|
  {
    var x :| x in s;
    var rest := s - {x};
    if rest == {} {
      assert s == {x};
      assert IsGreatest(s, x);
    } else {
      GreatestExists(rest);
      var g :| IsGreatest(rest, g);
      if Below(x, g) {
        assert IsGreatest(s, g);
      } else {
        BelowTotal(x, g);
        forall y | y in s && y != x
          ensures Below(y, x)
        {
          if y != g {
            BelowTransitive(y, g, x);
          }
        }
        assert IsGreatest(s, x);
      }
    }
  }

  lemma {:induction false} LeastExists(s: set<Bytes>)
    requires s != {}
    ensures exists l :: IsLeast(s, l)
    decreases |s|
  {
    var x :| x in s;
    var rest := s - {x};
    if rest == {} {
      assert s == {x};
      assert IsLeast(s, x);
    } else {
      LeastExists(rest);
      var l :| IsLeast(rest, l);
      if Below(l, x) {
        assert IsLeast(s, l);
      } else {
        BelowTotal(x, l);
        forall y | y in s && y != x
          ensures Below(x, y)
        {
          if y != l {
            BelowTransitive(x, l, y);
          }
        }
        assert IsLeast(s, x);
      }
    }
  }

  lemma GreatestUnique(s: set<Bytes>, g: Bytes, h: Bytes)
    requires IsGreatest(s, g) && IsGreatest(s, h)
    ensures g == h
  {
    if g != h {
      BelowTransitive(g, h, g);
      BelowIrreflexive(g);
    }
  }

  /** The key of a non-empty set that storage iterates last. */
  ghost function Greatest(s: set<Bytes>): (g: Bytes)
    requires s != {}
    ensures IsGreatest(s, g)
  {
    GreatestExists(s);
    var g :| IsGreatest(s, g);
    g
  }

  // ---------------------------------------------------------------------------------------------
  // Prefix scan

  /** `StorageMap.Find(prefix, FindOptions.KeysOnly | FindOptions.RemovePrefix)` over the key set
      `index` of one map: what is left of every key that starts with `prefix`. Nothing requires the
      rest of a key to be a whole identifier: a 16-byte prefix also matches a longer key that
      happens to start with it. */
  function Find(index: set<Bytes>, prefix: Bytes): (r: set<Bytes>)
    ensures forall s :: s in r <==> prefix + s in index
  {
    var r := set k | k in index && |prefix| <= |k| && k[..|prefix|] == prefix :: k[|prefix|..];
    forall s | prefix + s in index
      ensures s in r
    {
      var k := prefix + s;
      assert k[..|prefix|] == prefix && k[|prefix|..] == s;
    }
    forall s | s in r
      ensures prefix + s in index
    {
      var k :| k in index && |prefix| <= |k| && k[..|prefix|] == prefix && s == k[|prefix|..];
      assert prefix + s == k;
    }
    r
  }

  /** Adding one key to an index adds at most its own remainder to a scan. */
  lemma FindAfterInsert(index: set<Bytes>, prefix: Bytes, s: Bytes)
    ensures Find(index + {prefix + s}, prefix) == Find(index, prefix) + {s}
  {
  }
}
