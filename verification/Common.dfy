/** Types shared by the topic grammar, the router and the framing codec. */
module Common {
  type Byte = b: int | 0 <= b < 256

  type Bytes = seq<Byte>

  type U32 = n: int | 0 <= n < 0x1_0000_0000

  type U64 = n: int | 0 <= n < 0x1_0000_0000_0000_0000

  datatype Option<+T> = None | Some(value: T)

  datatype Result<+T, +E> = Ok(value: T) | Err(error: E)

  function MapValues<K, V, W>(m: map<K, V>, f: V -> W): map<K, W> {
    map k | k in m :: f(m[k])
  }

  lemma MapValuesStep<K, V, W>(m: map<K, V>, f: V -> W, k: K, v: V)
    ensures MapValues(m[k := v], f) == MapValues(m, f)[k := f(v)]
    ensures MapValues(m - {k}, f) == MapValues(m, f) - {k}
    ensures k in m <==> k in MapValues(m, f)
    ensures k in m ==> MapValues(m, f)[k] == f(m[k])
  {
  }

  lemma MapValuesCount<K, V, W>(m: map<K, V>, f: V -> W)
    ensures |MapValues(m, f)| == |m|
  {
    assert MapValues(m, f).Keys == m.Keys;
    assert |MapValues(m, f)| == |MapValues(m, f).Keys| && |m| == |m.Keys|;
  }

  lemma MinusAbsent<K, V>(m: map<K, V>, k: K)
    requires k !in m
    ensures m - {k} == m
  {
  }

  ghost function Elements<T>(s: seq<T>): set<T> {
    set x | x in s
  }

  lemma MapMinusLast<K, V>(m: map<K, V>, keys: seq<K>)
    requires keys != []
    ensures m - Elements(keys[..|keys| - 1]) - {keys[|keys| - 1]} == m - Elements(keys)
  {
    assert Elements(keys) == Elements(keys[..|keys| - 1]) + {keys[|keys| - 1]};
  }

  ghost predicate AllPrefixes<T>(p: seq<T> -> bool, s: seq<T>) {
    forall n :: 0 <= n <= |s| ==> p(s[..n])
  }

  lemma AllPrefixesSnoc<T>(p: seq<T> -> bool, s: seq<T>, x: T)
    ensures AllPrefixes(p, s + [x]) <==> AllPrefixes(p, s) && p(s + [x])
  {
    var all := s + [x];
    assert all[..|all|] == all;
    assert forall n :: 0 <= n <= |s| ==> all[..n] == s[..n];
    if AllPrefixes(p, all) {
      forall n | 0 <= n <= |s|
        ensures p(s[..n])
      {
        assert p(all[..n]);
      }
    }
  }
}
