/** The session registry: the process-wide `clients` dict, mapping a user id
    to its socket and language, with Python's insertion order. */
module SessionRegistry {
  import opened Wrappers
  import opened RelayTypes
  import opened TextHelpers

  predicate Distinct(s: seq<string>) {
    forall i, j :: 0 <= i < j < |s| ==> s[i] != s[j]
  }

  /** `s` with every occurrence of `x` removed, the rest in order. */
  function Without(s: seq<string>, x: string): (r: seq<string>)
    ensures |r| <= |s|
    ensures forall y :: y in r <==> y in s && y != x
    ensures Distinct(s) ==> Distinct(r)
  {
    if s == [] then []
    else if s[0] == x then Without(s[1..], x)
    else
      var t := Without(s[1..], x);
      assert forall k :: 0 <= k < |t| ==> t[k] in s[1..];
      [s[0]] + t
  }

  /** Removing an id that is not there changes nothing. */
  lemma {:induction false} WithoutAbsent(s: seq<string>, x: string)
    requires x !in s
    ensures Without(s, x) == s
  {
    if s != [] {
      WithoutAbsent(s[1..], x);
    }
  }

  /** Removal works piecewise, so the ids left keep their relative order. */
  lemma {:induction false} WithoutAppend(a: seq<string>, b: seq<string>, x: string)
    ensures Without(a + b, x) == Without(a, x) + Without(b, x)
  {
    if a == [] {
      assert a + b == b;
    } else {
      assert (a + b)[0] == a[0];
      assert (a + b)[1..] == a[1..] + b;
      WithoutAppend(a[1..], b, x);
    }
  }

  /** Removing the same id twice is removing it once. */
  lemma WithoutIdempotent(s: seq<string>, x: string)
    ensures Without(Without(s, x), x) == Without(s, x)
  {
    WithoutAbsent(Without(s, x), x);
  }

  /** The id a participant gets when its configuration names none:
      `f"user_{len(clients)+1}"`. */
  function DefaultUserId(count: nat): (id: string)
    ensures |id| > 5 && id[..5] == "user_" && id[5..] == Decimal(count + 1)
  {
    "user_" + Decimal(count + 1)
  }

  /** Default ids generated for different registry sizes are different. */
  lemma DefaultUserIdInjective(m: nat, n: nat)
    requires DefaultUserId(m) == DefaultUserId(n)
    ensures m == n
  {
    assert DefaultUserId(m)[5..] == DefaultUserId(n)[5..];
    DecimalInjective(m + 1, n + 1);
  }

  /** While every participant joined under a default id and nobody has left,
      the registry holds `user_1` to `user_n` and the next default id is
      fresh. A configured id can break this without any leave. */
  lemma {:induction false} DefaultUserIdFresh(keys: set<string>, n: nat)
    requires keys == set k | 0 <= k < n :: DefaultUserId(k)
    ensures DefaultUserId(n) !in keys
  {
    forall k | 0 <= k < n
      ensures DefaultUserId(k) != DefaultUserId(n)
    {
      assert DigitsValue(DefaultUserId(k)[5..]) == k + 1;
    }
  }

  /** The default id is not always fresh: with `user_2` alone in the
      registry (left there by a leave, or joined under that configured id)
      the next default id is `user_2` again, and the join that uses it
      replaces that participant. */
  lemma DefaultUserIdReused(p: Participant)
    ensures DefaultUserId(|map["user_2" := p]|) in map["user_2" := p]
  {
    var m := map["user_2" := p];
    assert m.Keys == {"user_2"};
    assert |m| == 1;
    assert DigitChar(2) == '2';
    assert Decimal(2) == "2";
    assert DefaultUserId(|m|) == "user_2";
  }

  /** `data.get("user_id", f"user_{len(clients)+1}")`. */
  function ResolveUserId(config: Config, count: nat): (id: string)
    ensures config.userId.Some? ==> id == config.userId.value
    ensures config.userId.None? ==> id == DefaultUserId(count)
  {
    config.userId.GetOr(DefaultUserId(count))
  }

  const DefaultLang: string := "en-US"

  /** `data.get("lang", "en-US")`. */
  function ResolveLang(config: Config): (lang: string)
    ensures config.lang.Some? ==> lang == config.lang.value
    ensures config.lang.None? ==> lang == DefaultLang
  {
    config.lang.GetOr(DefaultLang)
  }

  /** The registry: `clients` maps each id to its entry, and `ids` lists the
      same ids once each in the order the dict iterates them. */
  class Registry {
    var ids: seq<string>
    var clients: map<string, Participant>

    ghost predicate Valid()
      reads this
    {
      Distinct(ids) && (forall x :: x in clients <==> x in ids)
    }

    /** The registry is empty at process start. */
    constructor ()
      ensures Valid() && ids == [] && clients == map[]
    {
      ids := [];
      clients := map[];
    }

    /** `len(clients)`. */
    function Count(): (n: nat)
      reads this
      requires Valid()
      ensures n == |ids|
    {
      CountIsLength(ids, clients);
      |clients|
    }

    /** `clients[id] = {"socket": ..., "lang": ...}`: an upsert. The entry
        for `id` is replaced and keeps its place in the iteration order; a
        new id goes last; no other entry changes. */
    method Join(id: string, p: Participant)
      requires Valid()
      modifies this
      ensures Valid()
      ensures clients == old(clients)[id := p]
      ensures id in clients && clients[id] == p
      ensures forall x :: x != id ==> (x in clients <==> x in old(clients)) && (x in clients ==> clients[x] == old(clients)[x])
      ensures ids == if id in old(clients) then old(ids) else old(ids) + [id]
    {
      if id !in clients {
        ids := ids + [id];
      }
      clients := clients[id := p];
    }

    /** `clients.pop(id, None)`: removes `id` if present, and does nothing
        otherwise. */
    method Leave(id: string)
      requires Valid()
      modifies this
      ensures Valid()
      ensures clients == old(clients) - {id}
      ensures id !in clients
      ensures forall x :: x != id ==> (x in clients <==> x in old(clients)) && (x in clients ==> clients[x] == old(clients)[x])
      ensures ids == Without(old(ids), id)
      ensures id !in old(clients) ==> ids == old(ids) && clients == old(clients)
    {
      if id !in clients {
        WithoutAbsent(ids, id);
      }
      ids := Without(ids, id);
      clients := clients - {id};
    }
  }

  lemma {:induction false} CountIsLength(ids: seq<string>, clients: map<string, Participant>)
    requires Distinct(ids) && (forall x :: x in clients <==> x in ids)
    ensures |clients| == |ids|
  {
    assert clients.Keys == set x | x in ids;
    DistinctElements(ids);
  }

  /** A list without repetitions has as many elements as its set of elements. */
  lemma {:induction false} DistinctElements(s: seq<string>)
    requires Distinct(s)
    ensures |set x | x in s| == |s|
  {
    if s != [] {
      var tail := s[1..];
      assert Distinct(tail) by {
        forall i, j | 0 <= i < j < |tail|
          ensures tail[i] != tail[j]
        {
          assert tail[i] == s[i + 1] && tail[j] == s[j + 1];
        }
      }
      DistinctElements(tail);
      assert s[0] !in tail by {
        forall k | 0 <= k < |tail|
          ensures tail[k] != s[0]
        {
          assert tail[k] == s[k + 1];
        }
      }
      assert (set x | x in s) == (set x | x in tail) + {s[0]} by {
        assert s == [s[0]] + tail;
      }
    }
  }

  /** Two registries in sequence: `join` then `leave` of the same id removes
      it, a second `leave` changes nothing, and the other participant is
      untouched throughout. */
  method JoinLeaveScenario(a: Participant, b: Participant) returns (afterLeave: map<string, Participant>, afterSecondLeave: map<string, Participant>)
    ensures afterLeave == map["B" := b]
    ensures afterSecondLeave == afterLeave
  {
    var reg := new Registry();
    reg.Join("A", a);
    reg.Join("B", b);
    reg.Leave("A");
    afterLeave := reg.clients;
    reg.Leave("A");
    afterSecondLeave := reg.clients;
  }
}
