/** The names that the table of talkers shows (statistics.rs). */
module TalkerNames {
  import opened SpaceSaving

  /** The name that came with the user's last message; whatever it is if there was none. */
  function LastName<K(==)>(ms: seq<Message<K>>, user: K): string
  {
    if ms == [] then ""
    else
      var n := |ms| - 1;
      if ms[n].user == user then ms[n].name else LastName(ms[..n], user)
  }

  ghost predicate ShowsLastNames<K(!new)>(c: Counters<K>, ms: seq<Message<K>>)
  {
    forall u | u in c :: c[u].name == LastName(ms, u)
  }

  lemma IncrementShowsName<K(!new)>(capacity: nat, c: Counters<K>, ms: seq<Message<K>>, m: Message<K>, c': Counters<K>)
    requires ShowsLastNames(c, ms) && Increment(capacity, c, m.user, m.name, c')
    ensures ShowsLastNames(c', ms + [m])
  {
    assert (ms + [m])[..|ms|] == ms;
    forall u | u in c' ensures c'[u].name == if u == m.user then m.name else LastName(ms, u) {
      if u != m.user {
        assert u in c;
      }
    }
  }

  /** Main result: after every run each tracked user is shown under the name of the last message. */
  lemma {:induction false} EveryRunShowsLastNames<K(!new)>(
    capacity: nat, ms: seq<Message<K>>, states: seq<Counters<K>>)
    requires IsRun(capacity, ms, states)
    ensures ShowsLastNames(states[|ms|], ms)
  {
    if ms != [] {
      var n := |ms| - 1;
      EveryRunShowsLastNames(capacity, ms[..n], states[..|ms|]);
      hide Increment, ShowsLastNames;
      assert Increment(capacity, states[n], ms[n].user, ms[n].name, states[n + 1]);
      IncrementShowsName(capacity, states[n], ms[..n], ms[n], states[n + 1]);
      assert ms[..n] + [ms[n]] == ms;
    }
  }
}
