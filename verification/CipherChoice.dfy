/** Server cipher choice with equal-preference groups. */
module CipherChoice {
  import opened Wire

  type Cipher = int

  /** ssl_cipher_preference_list_st: flag 1 says that the next cipher is in the same group, 0 that
      this one is the last of its group. */
  datatype Preferences = Preferences(ciphers: seq<Cipher>, flags: seq<nat>)

  predicate WFPreferences(p: Preferences) {
    && |p.flags| == |p.ciphers|
    && (forall i :: 0 <= i < |p.flags| ==> p.flags[i] == 0 || p.flags[i] == 1)
    && (p.flags != [] ==> p.flags[|p.flags| - 1] == 0)
  }

  /** sk_SSL_CIPHER_find: the first position, or -1. */
  function IndexOf(list: seq<Cipher>, c: Cipher): (i: int)
    ensures -1 <= i < |list|
    ensures i >= 0 ==> list[i] == c && forall j :: 0 <= j < i ==> list[j] != c
    ensures i == -1 ==> c !in list
  {
    if list == [] then -1
    else if list[0] == c then 0
    else
      var i := IndexOf(list[1..], c);
      if i == -1 then -1 else i + 1
  }

  /** The cipher at `i` is acceptable on both sides. */
  predicate Shared(prio: seq<Cipher>, allow: seq<Cipher>, usable: set<Cipher>, i: nat)
    requires i < |prio|
  {
    prio[i] in usable && prio[i] in allow
  }

  /** No group ends between the two positions. */
  ghost predicate SameGroup(flags: seq<nat>, i: nat, j: nat) {
    forall k :: (i <= k < j || j <= k < i) && k < |flags| ==> flags[k] == 1
  }

  /** `i` is in the first group with a shared cipher, and of that group's shared ciphers it comes
      first in `allow`. */
  ghost predicate Preferred(prio: seq<Cipher>, flags: seq<nat>, allow: seq<Cipher>, usable: set<Cipher>, i: nat) {
    && |flags| == |prio| && i < |prio| && Shared(prio, allow, usable, i)
    && (forall j :: 0 <= j < i && Shared(prio, allow, usable, j) ==> SameGroup(flags, j, i))
    && (forall j :: 0 <= j < |prio| && Shared(prio, allow, usable, j) && SameGroup(flags, i, j)
          ==> IndexOf(allow, prio[i]) <= IndexOf(allow, prio[j]))
  }

  /** The meaning of the choice: a preferred cipher, or nothing when no cipher is shared. */
  ghost predicate BestChoice(prio: seq<Cipher>, flags: seq<nat>, allow: seq<Cipher>, usable: set<Cipher>,
      r: Option<Cipher>) {
    match r
    case None => forall i :: 0 <= i < |prio| ==> !Shared(prio, allow, usable, i)
    case Some(c) => exists i: nat :: Preferred(prio, flags, allow, usable, i) && c == prio[i]
  }

  lemma {:induction false} SameGroupTurns(flags: seq<nat>, i: nat, j: nat)
    ensures SameGroup(flags, i, j) == SameGroup(flags, j, i)
  {
  }

  /** The meaning leaves no freedom. */
  lemma {:induction false} BestChoiceIsUnique(prio: seq<Cipher>, flags: seq<nat>, allow: seq<Cipher>,
      usable: set<Cipher>, a: Option<Cipher>, b: Option<Cipher>)
    requires BestChoice(prio, flags, allow, usable, a) && BestChoice(prio, flags, allow, usable, b)
    ensures a == b
  {
    if a.Some? && b.Some? {
      var i: nat :| Preferred(prio, flags, allow, usable, i) && a.value == prio[i];
      var j: nat :| Preferred(prio, flags, allow, usable, j) && b.value == prio[j];
      SameGroupTurns(flags, i, j);
      assert SameGroup(flags, i, j);
      assert IndexOf(allow, prio[i]) == IndexOf(allow, prio[j]);
    }
  }

  /** Without groups the first shared cipher of `prio` is chosen. */
  lemma {:induction false} WithoutGroupsFirstWins(prio: seq<Cipher>, flags: seq<nat>, allow: seq<Cipher>,
      usable: set<Cipher>, i: nat)
    requires |flags| == |prio| && (forall k :: 0 <= k < |flags| ==> flags[k] == 0)
    ensures Preferred(prio, flags, allow, usable, i)
            <==> i < |prio| && Shared(prio, allow, usable, i) && forall j :: 0 <= j < i ==>
                !Shared(prio, allow, usable, j)
  {
    forall j: nat | j < |prio| && i < |prio| && j != i
      ensures !SameGroup(flags, j, i) && !SameGroup(flags, i, j)
    {
      assert flags[if i < j then i else j] != 1;
    }
  }

  /** What the loop knows after `n` ciphers: nothing shared so far, or a best one, all shared ones
      being in a group that has not ended. */
  ghost predicate SoFar(prio: seq<Cipher>, flags: seq<nat>, allow: seq<Cipher>, usable: set<Cipher>, n: nat,
      best: Option<nat>) {
    && |flags| == |prio| && n <= |prio|
    && match best
       case None => forall j :: 0 <= j < n ==> !Shared(prio, allow, usable, j)
       case Some(b) =>
         && b < n && Shared(prio, allow, usable, b)
         && forall j :: 0 <= j < n && Shared(prio, allow, usable, j) ==>
              SameGroup(flags, j, n) && IndexOf(allow, prio[b]) <= IndexOf(allow, prio[j])
  }

  /** The best of the first `n + 1`, group ends aside. */
  function Better(prio: seq<Cipher>, allow: seq<Cipher>, usable: set<Cipher>, n: nat, best: Option<nat>): Option<nat>
    requires n < |prio| && (best.Some? ==> best.value < n)
  {
    if !Shared(prio, allow, usable, n) then best
    else if best.Some? && IndexOf(allow, prio[best.value]) <= IndexOf(allow, prio[n]) then best
    else Some(n)
  }

  lemma {:induction false} InsideGroup(prio: seq<Cipher>, flags: seq<nat>, allow: seq<Cipher>, usable: set<Cipher>,
      n: nat, best: Option<nat>)
    requires SoFar(prio, flags, allow, usable, n, best) && n < |prio|
        && (flags[n] == 1 || Better(prio, allow, usable, n, best).None?)
    ensures SoFar(prio, flags, allow, usable, n + 1, Better(prio, allow, usable, n, best))
  {
    hide IndexOf;
  }

  lemma {:induction false} EndOfGroup(prio: seq<Cipher>, flags: seq<nat>, allow: seq<Cipher>, usable: set<Cipher>,
      n: nat, best: Option<nat>)
    requires SoFar(prio, flags, allow, usable, n, best) && n < |prio| && flags[n] == 0
    requires Better(prio, allow, usable, n, best).Some?
    ensures Preferred(prio, flags, allow, usable, Better(prio, allow, usable, n, best).value)
  {
    hide IndexOf, Shared;
    var b := Better(prio, allow, usable, n, best).value;
    forall j | 0 <= j < |prio| && Shared(prio, allow, usable, j) && SameGroup(flags, b, j)
      ensures j <= n
    {
    }
  }

  lemma {:induction false} NothingSoFar(prio: seq<Cipher>, flags: seq<nat>, allow: seq<Cipher>, usable: set<Cipher>)
    requires |flags| == |prio|
    ensures SoFar(prio, flags, allow, usable, 0, None)
  {
  }

  lemma {:induction false} NoneShared(prio: seq<Cipher>, flags: seq<nat>, allow: seq<Cipher>, usable: set<Cipher>)
    requires SoFar(prio, flags, allow, usable, |prio|, None)
    ensures BestChoice(prio, flags, allow, usable, None)
  {
  }

  /** The loop of ssl3_choose_cipher; `None` for `flags` is the null pointer. */
  method Choose(prio: seq<Cipher>, flags: Option<seq<nat>>, allow: seq<Cipher>, usable: set<Cipher>)
      returns (r: Option<Cipher>)
    requires flags.Some? ==> WFPreferences(Preferences(prio, flags.value))
    ensures var f := if flags.Some? then flags.value else seq(|prio|, _ => 0);
            BestChoice(prio, f, allow, usable, r)
  {
    hide SameGroup, SoFar, Preferred;
    ghost var f := if flags.Some? then flags.value else seq(|prio|, _ => 0);
    var groupMin := -1;
    ghost var best: Option<nat> := None;
    var i := 0;
    NothingSoFar(prio, f, allow, usable);
    while i < |prio|
      invariant 0 <= i <= |prio|
      invariant SoFar(prio, f, allow, usable, i, best)
      invariant best.Some? ==> best.value < i && Shared(prio, allow, usable, best.value) && i > 0 && f[i - 1] == 1
      invariant groupMin == if best.Some? then IndexOf(allow, prio[best.value]) else -1
    {
      var c := prio[i];
      var cipherIndex := IndexOf(allow, c);
      ghost var better := Better(prio, allow, usable, i, best);
      if c in usable && cipherIndex != -1 {
        if flags.Some? && flags.value[i] == 1 {
          if groupMin == -1 || groupMin > cipherIndex {
            groupMin := cipherIndex;
          }
        } else {
          if groupMin != -1 && groupMin < cipherIndex {
            cipherIndex := groupMin;
          }
          EndOfGroup(prio, f, allow, usable, i, best);
          return Some(allow[cipherIndex]);
        }
      }
      if flags.Some? && flags.value[i] == 0 && groupMin != -1 {
        EndOfGroup(prio, f, allow, usable, i, best);
        return Some(allow[groupMin]);
      }
      InsideGroup(prio, f, allow, usable, i, best);
      best := better;
      i := i + 1;
    }
    NoneShared(prio, f, allow, usable);
    r := None;
  }

  /** ssl3_choose_cipher: with server preference the server's groups rank first and the client's
      order within a group; otherwise the client's order alone. */
  method ChooseCipher(client: Option<seq<Cipher>>, server: Preferences, serverPreference: bool, usable: set<Cipher>)
      returns (r: Option<Cipher>)
    requires WFPreferences(server)
    ensures client.None? ==> r == None
    ensures client.Some? && serverPreference ==> BestChoice(server.ciphers, server.flags, client.value, usable, r)
    ensures client.Some? && !serverPreference ==>
              match r
              case None => forall c :: c in client.value && c in usable ==> c !in server.ciphers
              case Some(c) =>
                exists i :: 0 <= i < |client.value| && client.value[i] == c && c in usable && c in server.ciphers
                  && forall j :: 0 <= j < i ==> !(client.value[j] in usable && client.value[j] in server.ciphers)
  {
    if client.None? {
      return None;
    }
    if serverPreference {
      r := Choose(server.ciphers, Some(server.flags), client.value, usable);
    } else {
      r := Choose(client.value, None, server.ciphers, usable);
      ghost var f: seq<nat> := seq(|client.value|, _ => 0);
      if r.Some? {
        ghost var i: nat :| Preferred(client.value, f, server.ciphers, usable, i) && r.value == client.value[i];
        WithoutGroupsFirstWins(client.value, f, server.ciphers, usable, i);
        assert forall j :: 0 <= j < i ==> (Shared(client.value, server.ciphers, usable, j) <==>
            client.value[j] in usable && client.value[j] in server.ciphers);
      } else {
        forall c | c in client.value && c in usable
          ensures c !in server.ciphers
        {
          var i: nat :| i < |client.value| && client.value[i] == c;
          assert !Shared(client.value, server.ciphers, usable, i);
        }
      }
    }
  }
}
