/**
  The memoizing SPF resolver of a health check (dns.rs): one cache per record
  type, keyed by the ASCII-folded name, filled on a miss and never invalidated.
 */
module SpfMemo {
  import opened Ascii

  /** A list of records or a DNS error; both are cached. */
  datatype Answer = Records(values: seq<string>) | DnsError(message: string)

  /** `cache_key`. */
  function CacheKey(name: string): string {
    seq(|name|, i requires 0 <= i < |name| => Lower(name[i]))
  }

  /** Two names share a cache entry exactly when they are equal up to ASCII case. */
  lemma KeyIgnoresCase(a: string, b: string)
    ensures CacheKey(a) == CacheKey(b) <==> EqIgnoreCase(a, b)
  {
    if CacheKey(a) == CacheKey(b) {
      forall i | 0 <= i < |a|
        ensures SameLetter(a[i], b[i])
      {
        assert CacheKey(a)[i] == CacheKey(b)[i];
      }
    }
  }

  /** One cache, and the names its inner resolver was asked for. */
  datatype State = State(cache: map<string, Answer>, asked: seq<string>)

  /** A lookup; `inner` is what the inner resolver would say at this moment. */
  datatype Lookup = Lookup(name: string, inner: Answer)

  function Resolve(st: State, l: Lookup): (State, Answer) {
    var key := CacheKey(l.name);
    if key in st.cache then (st, st.cache[key])
    else (State(st.cache[key := l.inner], st.asked + [l.name]), l.inner)
  }

  /** `MemoizingSpfResolver`: three maps, each held under its lock for a whole lookup. */
  class MemoizingResolver {
    var txt: map<string, Answer>
    var addresses: map<string, Answer>
    var mx: map<string, Answer>
    ghost var txtAsked: seq<string>
    ghost var addressesAsked: seq<string>
    ghost var mxAsked: seq<string>

    constructor ()
      ensures txt == addresses == mx == map[] && txtAsked == addressesAsked == mxAsked == []
    {
      txt, addresses, mx := map[], map[], map[];
      txtAsked, addressesAsked, mxAsked := [], [], [];
    }

    method Txt(name: string, inner: Answer) returns (answer: Answer)
      modifies this`txt, this`txtAsked
      ensures (State(txt, txtAsked), answer) == Resolve(State(old(txt), old(txtAsked)), Lookup(name, inner))
    {
      var key := CacheKey(name);
      if key in txt {
        return txt[key];
      }
      answer := inner;
      txtAsked := txtAsked + [name];
      txt := txt[key := answer];
    }

    method IpAddresses(name: string, inner: Answer) returns (answer: Answer)
      modifies this`addresses, this`addressesAsked
      ensures (State(addresses, addressesAsked), answer)
           == Resolve(State(old(addresses), old(addressesAsked)), Lookup(name, inner))
    {
      var key := CacheKey(name);
      if key in addresses {
        return addresses[key];
      }
      answer := inner;
      addressesAsked := addressesAsked + [name];
      addresses := addresses[key := answer];
    }

    method MxHosts(name: string, inner: Answer) returns (answer: Answer)
      modifies this`mx, this`mxAsked
      ensures (State(mx, mxAsked), answer) == Resolve(State(old(mx), old(mxAsked)), Lookup(name, inner))
    {
      var key := CacheKey(name);
      if key in mx {
        return mx[key];
      }
      answer := inner;
      mxAsked := mxAsked + [name];
      mx := mx[key := answer];
    }
  }

  // ----------------------------------------------------------------- runs

  function Run(lookups: seq<Lookup>): State {
    if lookups == [] then State(map[], [])
    else Resolve(Run(lookups[..|lookups| - 1]), lookups[|lookups| - 1]).0
  }

  /** The answer to lookup `i` of a run. */
  function AnswerAt(lookups: seq<Lookup>, i: nat): Answer
    requires i < |lookups|
  {
    Resolve(Run(lookups[..i]), lookups[i]).1
  }

  /** The first lookup of a name equal up to ASCII case. */
  function FirstOf(lookups: seq<Lookup>, key: string): (j: nat)
    ensures j <= |lookups|
    ensures j < |lookups| ==> CacheKey(lookups[j].name) == key
    ensures forall k :: 0 <= k < j ==> CacheKey(lookups[k].name) != key
  {
    if lookups == [] || CacheKey(lookups[0].name) == key then 0
    else
      var j := 1 + FirstOf(lookups[1..], key);
      assert forall k :: 1 <= k < j ==> lookups[k] == lookups[1..][k - 1];
      j
  }

  /** The cache after a run holds, for every name looked up, the first answer it got. */
  lemma {:induction false} CacheIsFirst(lookups: seq<Lookup>, key: string)
    ensures var j := FirstOf(lookups, key);
            && (key in Run(lookups).cache <==> j < |lookups|)
            && (j < |lookups| ==> Run(lookups).cache[key] == lookups[j].inner)
  {
    if lookups != [] {
      var front, last := lookups[..|lookups| - 1], lookups[|lookups| - 1];
      CacheIsFirst(front, key);
      FirstOfFront(lookups, key);
    }
  }

  lemma FirstOfFront(lookups: seq<Lookup>, key: string)
    requires lookups != []
    ensures var n := |lookups| - 1;
            FirstOf(lookups, key)
            == if FirstOf(lookups[..n], key) < n then FirstOf(lookups[..n], key)
               else if CacheKey(lookups[n].name) == key then n else n + 1
  {
    var n := |lookups| - 1;
    var i, j := FirstOf(lookups, key), FirstOf(lookups[..n], key);
    assert forall k :: 0 <= k < n ==> lookups[..n][k] == lookups[k];
    assert i <= j || i >= n;
    assert i >= j;
  }

  /** Names equal up to ASCII case get the first answer, errors included. */
  lemma FirstAnswerWins(lookups: seq<Lookup>, i: nat)
    requires i < |lookups|
    ensures var j := FirstOf(lookups, CacheKey(lookups[i].name));
            j <= i && AnswerAt(lookups, i) == lookups[j].inner
  {
    var key := CacheKey(lookups[i].name);
    var j, front := FirstOf(lookups, key), FirstOf(lookups[..i], key);
    CacheIsFirst(lookups[..i], key);
    assert forall k :: 0 <= k < i ==> lookups[..i][k] == lookups[k];
    assert j <= i;
    assert front == j || (front == i && j == i) by {
      assert front <= j;
      assert front < i ==> front == j;
    }
  }

  predicate AskedHasKey(asked: seq<string>, key: string) {
    exists a :: 0 <= a < |asked| && CacheKey(asked[a]) == key
  }

  /** The names asked for have distinct keys, and these are the keys of the cache. */
  ghost predicate AskedOnce(st: State) {
    && (forall a, b :: 0 <= a < b < |st.asked| ==> CacheKey(st.asked[a]) != CacheKey(st.asked[b]))
    && (forall key :: key in st.cache <==> AskedHasKey(st.asked, key))
  }

  lemma AskedAppend(asked: seq<string>, name: string, key: string)
    ensures AskedHasKey(asked + [name], key) <==> AskedHasKey(asked, key) || CacheKey(name) == key
  {
    var more := asked + [name];
    if a :| 0 <= a < |asked| && CacheKey(asked[a]) == key {
      assert more[a] == asked[a];
    }
    assert more[|asked|] == name;
  }

  lemma ResolveKeepsAskedOnce(st: State, l: Lookup)
    requires AskedOnce(st)
    ensures AskedOnce(Resolve(st, l).0)
  {
    var after := Resolve(st, l).0;
    if CacheKey(l.name) !in st.cache {
      forall key
        ensures key in after.cache <==> AskedHasKey(after.asked, key)
      {
        AskedAppend(st.asked, l.name, key);
      }
      forall a, b | 0 <= a < b < |after.asked|
        ensures CacheKey(after.asked[a]) != CacheKey(after.asked[b])
      {
        if b == |st.asked| {
          assert AskedHasKey(st.asked, CacheKey(st.asked[a]));
        }
      }
    }
  }

  /** The inner resolver is asked exactly once per folded name. */
  lemma {:induction false} AskedOncePerName(lookups: seq<Lookup>)
    ensures AskedOnce(Run(lookups))
  {
    if lookups != [] {
      AskedOncePerName(lookups[..|lookups| - 1]);
      ResolveKeepsAskedOnce(Run(lookups[..|lookups| - 1]), lookups[|lookups| - 1]);
    }
  }

  /** Over a fixed case-insensitive resolver, memoization cannot be observed. */
  lemma Transparent(lookups: seq<Lookup>, resolver: string -> Answer, i: nat)
    requires i < |lookups|
    requires forall l <- lookups :: l.inner == resolver(l.name)
    requires forall a, b :: EqIgnoreCase(a, b) ==> resolver(a) == resolver(b)
    ensures AnswerAt(lookups, i) == resolver(lookups[i].name)
  {
    FirstAnswerWins(lookups, i);
    var j := FirstOf(lookups, CacheKey(lookups[i].name));
    assert lookups[j] in lookups;
    KeyIgnoresCase(lookups[j].name, lookups[i].name);
  }
}
