/** Shared vocabulary: bytes, options, Python slicing, big-endian integers,
    get-or-create on tables, and the sharded storage-key scheme. */
module Common {

  type byte = b: int | 0 <= b < 256
  type Bytes = seq<byte>

  datatype Option<T> = None | Some(value: T)

  function Min(a: int, b: int): int { if a <= b then a else b }
  function Max(a: int, b: int): int { if a <= b then b else a }

  /** Python's `s[i:j]` for non-negative bounds: both ends are clamped to the length. */
  function Slice<T>(s: seq<T>, i: nat, j: nat): (r: seq<T>)
    ensures i <= j <= |s| ==> r == s[i..j]
    ensures i <= |s| && |s| <= j ==> r == s[i..]
    ensures |s| <= i || j <= i ==> r == []
    ensures |r| == Max(0, Min(j, |s|) - Min(i, |s|))
  {
    var lo := Min(i, |s|);
    var hi := Min(j, |s|);
    if lo <= hi then s[lo..hi] else []
  }

  /** Concatenation of a sequence of sequences. */
  function Flatten<T>(parts: seq<seq<T>>): seq<T>
  {
    if parts == [] then [] else parts[0] + Flatten(parts[1..])
  }

  lemma {:induction false} FlattenAppend<T>(parts: seq<seq<T>>, last: seq<T>)
    ensures Flatten(parts + [last]) == Flatten(parts) + last
  {
    if parts == [] {
      assert parts + [last] == [last];
    } else {
      assert (parts + [last])[1..] == parts[1..] + [last];
      FlattenAppend(parts[1..], last);
    }
  }

  lemma {:induction false} FlattenLast<T>(parts: seq<seq<T>>)
    requires parts != []
    ensures Flatten(parts) == Flatten(parts[..|parts| - 1]) + parts[|parts| - 1]
  {
    assert parts == parts[..|parts| - 1] + [parts[|parts| - 1]];
    FlattenAppend(parts[..|parts| - 1], parts[|parts| - 1]);
  }

  lemma {:induction false} FlattenConcat<T>(a: seq<seq<T>>, b: seq<seq<T>>)
    ensures Flatten(a + b) == Flatten(a) + Flatten(b)
  {
    if a == [] {
      assert a + b == b;
    } else {
      assert (a + b)[1..] == a[1..] + b;
      FlattenConcat(a[1..], b);
    }
  }

  function Sum(xs: seq<nat>): nat
  {
    if xs == [] then 0 else xs[0] + Sum(xs[1..])
  }

  lemma {:induction false} SumAppend(xs: seq<nat>, x: nat)
    ensures Sum(xs + [x]) == Sum(xs) + x
  {
    if xs == [] {
      assert xs + [x] == [x];
    } else {
      assert (xs + [x])[1..] == xs[1..] + [x];
      SumAppend(xs[1..], x);
    }
  }

  /** A list of part lengths sums to the length of the parts' concatenation. */
  lemma {:induction false} FlattenLengths<T>(parts: seq<seq<T>>, lens: seq<nat>)
    requires |lens| == |parts| && forall i :: 0 <= i < |parts| ==> lens[i] == |parts[i]|
    ensures Sum(lens) == |Flatten(parts)|
  {
    if parts != [] {
      FlattenLengths(parts[1..], lens[1..]);
    }
  }

  /** True when `pre` is a prefix of `s` (Python `s.startswith(pre)`). */
  predicate StartsWith<T(==)>(s: seq<T>, pre: seq<T>)
  {
    |pre| <= |s| && s[..|pre|] == pre
  }

  /** `pat` occurs in `s` starting at index `k`. */
  predicate OccursAt<T(==)>(s: seq<T>, pat: seq<T>, k: nat)
  {
    k + |pat| <= |s| && s[k..k + |pat|] == pat
  }

  /** Smallest index `k >= from` at which `pat` occurs in `s` (Python `s.find(pat, from)`). */
  function Find<T(==)>(s: seq<T>, pat: seq<T>, from: nat): (r: Option<nat>)
    requires |pat| > 0
    ensures r.Some? ==> from <= r.value && OccursAt(s, pat, r.value)
    ensures r.Some? ==> forall k: nat :: from <= k < r.value ==> !OccursAt(s, pat, k)
    ensures r.None? ==> forall k: nat :: from <= k ==> !OccursAt(s, pat, k)
    decreases |s| - from
  {
    if from + |pat| > |s| then None
    else if OccursAt(s, pat, from) then Some(from)
    else Find(s, pat, from + 1)
  }

  function Pow256(n: nat): (r: nat)
    ensures r >= 1
  {
    if n == 0 then 1 else 256 * Pow256(n - 1)
  }

  /** `n` as `width` big-endian bytes (Python `struct.pack(">I"/">Q")`). */
  function BigEndian(n: nat, width: nat): (r: Bytes)
    requires n < Pow256(width)
    ensures |r| == width
  {
    if width == 0 then [] else BigEndian(n / 256, width - 1) + [n % 256]
  }

  /** The unsigned integer whose big-endian bytes are `s`. */
  function FromBigEndian(s: Bytes): (r: nat)
    ensures r < Pow256(|s|)
  {
    if s == [] then 0 else FromBigEndian(s[..|s| - 1]) * 256 + s[|s| - 1]
  }

  lemma {:induction false} BigEndianRoundTrip(n: nat, width: nat)
    requires n < Pow256(width)
    ensures FromBigEndian(BigEndian(n, width)) == n
  {
    if width > 0 {
      var r := BigEndian(n, width);
      assert r[..|r| - 1] == BigEndian(n / 256, width - 1);
      BigEndianRoundTrip(n / 256, width - 1);
    }
  }

  /** The storage-key scheme shared by blocks, xorbs and shards:
      prefix, the first two characters, the next two, then the whole id
      (Python slicing, so short ids give short segments). */
  function ShardedKey(prefix: string, id: string): string
  {
    prefix + Slice(id, 0, 2) + "/" + Slice(id, 2, 4) + "/" + id
  }

  /** A key starts with its prefix, ends with the whole id, and has two
      separators and up to four characters of the id besides. */
  lemma ShardedKeyShape(prefix: string, id: string)
    ensures var r := ShardedKey(prefix, id);
            && StartsWith(r, prefix)
            && |r| >= |id| && r[|r| - |id|..] == id
            && |r| == |prefix| + 2 + |id| + Min(|id|, 4)
  {
    var r := ShardedKey(prefix, id);
    assert r[..|prefix|] == prefix;
  }

  /** Distinct ids never share a key under the same prefix. */
  lemma {:induction false} ShardedKeyInjective(prefix: string, a: string, b: string)
    requires ShardedKey(prefix, a) == ShardedKey(prefix, b)
    ensures a == b
  {
    var ka := ShardedKey(prefix, a);
    ShardedKeyShape(prefix, a);
    ShardedKeyShape(prefix, b);
    assert |a| == |b|;
    assert a == ka[|ka| - |a|..];
  }

  /** Keys under prefixes that differ within their common length never collide. */
  lemma {:induction false} ShardedKeyPrefixesDisjoint(p: string, q: string, a: string, b: string, i: nat)
    requires i < |p| && i < |q| && p[i] != q[i]
    ensures ShardedKey(p, a) != ShardedKey(q, b)
  {
    ShardedKeyShape(p, a);
    ShardedKeyShape(q, b);
    assert ShardedKey(p, a)[i] == p[i];
    assert ShardedKey(q, b)[i] == q[i];
  }

  /** Overwriting a key twice leaves only the second value. */
  lemma MapUpdateTwice<K, V>(m: map<K, V>, k: K, v: V, w: V)
    ensures m[k := v][k := w] == m[k := w]
  { }

  /** peewee `get_or_create` on a table keyed by `k`: an existing row is
      kept as it is, a missing one is created with `v`. */
  function GetOrCreate<K, V>(rows: map<K, V>, k: K, v: V): (r: map<K, V>)
    ensures k in r && r.Keys == rows.Keys + {k}
    ensures k in rows ==> r == rows
    ensures k !in rows ==> r[k] == v && forall x :: x in rows ==> r[x] == rows[x]
  {
    if k in rows then rows else rows[k := v]
  }

  predicate Distinct<T(==)>(s: seq<T>)
  {
    forall i, j :: 0 <= i < j < |s| ==> s[i] != s[j]
  }

  /** The decimal text of a number, as Python's `str` writes it. */
  function Decimal(n: nat): (r: string)
    ensures |r| >= 1 && (n >= 10 ==> |r| >= 2)
    ensures forall k :: 0 <= k < |r| ==> '0' <= r[k] <= '9'
    decreases n
  {
    if n < 10 then [(48 + n) as char] else Decimal(n / 10) + [(48 + n % 10) as char]
  }

  /** Different numbers have different decimal texts. */
  lemma {:induction false} DecimalInjective(a: nat, b: nat)
    requires Decimal(a) == Decimal(b)
    ensures a == b
    decreases a
  {
    if a >= 10 && b >= 10 {
      var da, db := Decimal(a), Decimal(b);
      assert da[|da| - 1] == db[|db| - 1];
      assert a % 10 == b % 10;
      assert Decimal(a / 10) == da[..|da| - 1] == db[..|db| - 1] == Decimal(b / 10);
      DecimalInjective(a / 10, b / 10);
    } else if a < 10 && b < 10 {
      assert Decimal(a)[0] == Decimal(b)[0];
    }
  }
}
