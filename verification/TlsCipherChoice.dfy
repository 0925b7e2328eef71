/** ssl3_choose_cipher: the server's cipher list may be split into groups of equal preference,
    within which the client's order decides. */
module TlsCipherChoice {
  import opened Bits
  import opened Wrappers

  datatype SslCipher = SslCipher(id: nat, minVersion: nat, maxVersion: nat, mkey: nat, auth: nat)

  /** ssl_cipher_preference_list_st. A flag of 1 says that the next cipher is in the same
      group, 0 that a group ends. */
  datatype PreferenceList = PreferenceList(ciphers: seq<SslCipher>, inGroupFlags: seq<nat>) {
    predicate Valid() {
      && |inGroupFlags| == |ciphers|
      && forall i :: 0 <= i < |inGroupFlags| ==> inGroupFlags[i] == 0 || inGroupFlags[i] == 1
    }

    /** Every group ends. */
    predicate Terminated() {
      ciphers != [] && |inGroupFlags| == |ciphers| ==> inGroupFlags[|ciphers| - 1] == 0
    }
  }

  /** The protocol version and the key exchange and authentication masks of
      ssl_get_compatible_server_ciphers. */
  datatype Support = Support(version: nat, maskK: nat, maskA: nat) {
    predicate Allows(c: SslCipher) {
      c.minVersion <= version <= c.maxVersion && And(c.mkey, maskK) != 0 && And(c.auth, maskA) != 0
    }
  }

  /** sk_SSL_CIPHER_find: the first position of c. */
  function Find(s: seq<SslCipher>, c: SslCipher): (r: Option<nat>)
    ensures r.None? <==> c !in s
    ensures r.Some? ==> r.value < |s| && s[r.value] == c && c !in s[..r.value]
  {
    if s == [] then None
    else if s[0] == c then Some(0)
    else
      match Find(s[1..], c)
      case None => None
      case Some(i) =>
        assert s[..i + 1] == [s[0]] + s[1..][..i];
        Some(i + 1)
  }

  /** The number of groups that end before position i. */
  function GroupOf(flags: seq<nat>, i: nat): nat
    requires i <= |flags|
  {
    if i == 0 then 0 else GroupOf(flags, i - 1) + if flags[i - 1] == 0 then 1 else 0
  }

  lemma {:induction false} GroupsAscend(flags: seq<nat>, i: nat, k: nat)
    requires i <= k <= |flags|
    ensures GroupOf(flags, i) <= GroupOf(flags, k)
    ensures (exists e :: i <= e < k && flags[e] == 0) <==> GroupOf(flags, i) < GroupOf(flags, k)
    decreases k
  {
    if i < k { GroupsAscend(flags, i, k - 1); }
  }

  /** Some cipher from i on ends its group. */
  predicate Closed(flags: seq<nat>, i: nat) {
    exists e :: i <= e < |flags| && flags[e] == 0
  }

  /** The cipher at position i of prio can be used by both sides. */
  predicate Usable(s: Support, prio: seq<SslCipher>, allow: seq<SslCipher>, i: nat)
    requires i < |prio|
  {
    s.Allows(prio[i]) && prio[i] in allow
  }

  /** The place the other side gives to the cipher at position i. */
  function Place(prio: seq<SslCipher>, allow: seq<SslCipher>, i: nat): nat
    requires i < |prio| && prio[i] in allow
  {
    Find(allow, prio[i]).value
  }

  /** No usable cipher is better than the one at k: all are in later groups, or in the same
      group and not earlier in the other side's list. */
  ghost predicate Best(s: Support, prio: seq<SslCipher>, flags: seq<nat>, allow: seq<SslCipher>, k: nat)
    requires |flags| == |prio|
  {
    && k < |prio| && Usable(s, prio, allow, k)
    && forall i :: 0 <= i < |prio| && Usable(s, prio, allow, i) ==>
         || GroupOf(flags, i) > GroupOf(flags, k)
         || (GroupOf(flags, i) == GroupOf(flags, k) && Place(prio, allow, i) >= Place(prio, allow, k))
  }

  /** So the choice is determined. */
  lemma BestIsOne(s: Support, prio: seq<SslCipher>, flags: seq<nat>, allow: seq<SslCipher>, k: nat, k': nat)
    requires |flags| == |prio| && Best(s, prio, flags, allow, k) && Best(s, prio, flags, allow, k')
    ensures prio[k] == prio[k']
  {
    assert Place(prio, allow, k) == Place(prio, allow, k');
  }

  /** The loop of ssl3_choose_cipher. A group that does not end is never chosen from. */
  method Scan(s: Support, prio: seq<SslCipher>, flags: seq<nat>, allow: seq<SslCipher>) returns (r: Option<SslCipher>)
    requires PreferenceList(prio, flags).Valid()
    ensures r.Some? ==> exists k: nat | Best(s, prio, flags, allow, k) :: Closed(flags, k) && r.value == prio[k]
    ensures r.None? <==> forall i :: 0 <= i < |prio| && Usable(s, prio, allow, i) ==> !Closed(flags, i)
  {
    var groupMin: int := -1;
    ghost var best: nat := 0;
    for i := 0 to |prio|
      invariant groupMin == -1 ==> forall j :: 0 <= j < i ==> !Usable(s, prio, allow, j)
      invariant groupMin != -1 ==>
        && best < i && Usable(s, prio, allow, best) && groupMin == Place(prio, allow, best)
        && GroupOf(flags, best) == GroupOf(flags, i)
        && forall j :: 0 <= j < i && Usable(s, prio, allow, j) ==>
             GroupOf(flags, j) == GroupOf(flags, i) && Place(prio, allow, j) >= groupMin
    {
      var c := prio[i];
      var found := Find(allow, c);
      if s.Allows(c) && found.Some? {
        var cipherIndex := found.value;
        if flags[i] == 1 {
          if groupMin == -1 || groupMin > cipherIndex {
            groupMin, best := cipherIndex, i;
          }
        } else {
          if groupMin != -1 && groupMin < cipherIndex {
            cipherIndex := groupMin;
          } else {
            best := i;
          }
          Answer(s, prio, flags, allow, i, best);
          return Some(allow[cipherIndex]);
        }
      }
      if flags[i] == 0 && groupMin != -1 {
        Answer(s, prio, flags, allow, i, best);
        return Some(allow[groupMin]);
      }
    }
    forall i | 0 <= i < |prio| && Usable(s, prio, allow, i) ensures !Closed(flags, i) {
      GroupsAscend(flags, i, |prio|);
    }
    r := None;
  }

  /** For example, a list of one cipher both sides can use, marked as if more of its group came. */
  method EndlessGroup(s: Support, c: SslCipher) returns (r: Option<SslCipher>)
    requires s.Allows(c)
    ensures Usable(s, [c], [c], 0) && r.None?
  {
    assert forall i :: 0 <= i < 1 ==> !Closed([1], i);
    r := Scan(s, [c], [1], [c]);
  }

  /** At the end of a group, the best so far is the best of all. */
  lemma Answer(s: Support, prio: seq<SslCipher>, flags: seq<nat>, allow: seq<SslCipher>, i: nat, best: nat)
    requires |flags| == |prio| && best <= i < |prio| && flags[i] == 0 && Usable(s, prio, allow, best)
    requires GroupOf(flags, best) == GroupOf(flags, i)
    requires forall j :: 0 <= j <= i && Usable(s, prio, allow, j) ==>
      GroupOf(flags, j) == GroupOf(flags, i) && Place(prio, allow, j) >= Place(prio, allow, best)
    ensures Best(s, prio, flags, allow, best) && Closed(flags, best)
  {
    forall j | i < j < |prio| ensures GroupOf(flags, j) > GroupOf(flags, best) {
      GroupsAscend(flags, i + 1, j);
    }
  }

  /** When the last group ends, every cipher is in a group that does. */
  lemma AllClosed(s: Support, prio: seq<SslCipher>, flags: seq<nat>, allow: seq<SslCipher>)
    requires |flags| == |prio| && (prio != [] ==> flags[|prio| - 1] == 0)
    ensures (forall i :: 0 <= i < |prio| && Usable(s, prio, allow, i) ==> !Closed(flags, i)) <==>
            (forall c :: c in prio && c in allow ==> !s.Allows(c))
  {
    forall i | 0 <= i < |prio| ensures Closed(flags, i) {
      assert flags[|prio| - 1] == 0;
    }
    forall c | (forall i :: 0 <= i < |prio| ==> !Usable(s, prio, allow, i)) && c in prio && c in allow
      ensures !s.Allows(c)
    {
      var i :| 0 <= i < |prio| && prio[i] == c;
      assert !Usable(s, prio, allow, i);
    }
  }

  lemma {:induction false} EachAlone(flags: seq<nat>, i: nat)
    requires i <= |flags| && forall j :: 0 <= j < i ==> flags[j] == 0
    ensures GroupOf(flags, i) == i
  {
    if i > 0 { EachAlone(flags, i - 1); }
  }

  /** ssl3_choose_cipher, given the client's list if it could be parsed. */
  method ChooseCipher(client: Option<seq<SslCipher>>, server: PreferenceList, serverPreference: bool, s: Support)
      returns (r: Option<SslCipher>)
    requires server.Valid()
    ensures client.None? ==> r.None?
    ensures client.Some? && serverPreference && r.Some? ==>
      exists k: nat | Best(s, server.ciphers, server.inGroupFlags, client.value, k) ::
        Closed(server.inGroupFlags, k) && r.value == server.ciphers[k]
    ensures client.Some? && serverPreference ==>
      (r.None? <==> forall i :: 0 <= i < |server.ciphers| && Usable(s, server.ciphers, client.value, i) ==>
        !Closed(server.inGroupFlags, i))
    ensures client.Some? && serverPreference && server.Terminated() ==>
      (r.None? <==> forall c :: c in server.ciphers && c in client.value ==> !s.Allows(c))
    ensures client.Some? && !serverPreference && r.Some? ==>
      exists k | 0 <= k < |client.value| && Usable(s, client.value, server.ciphers, k) ::
        r.value == client.value[k] && forall i :: 0 <= i < k ==> !Usable(s, client.value, server.ciphers, i)
    ensures client.Some? && !serverPreference ==>
      (r.None? <==> forall c :: c in server.ciphers && c in client.value ==> !s.Allows(c))
  {
    hide GroupOf, Find;
    if client.None? {
      return None;
    }
    if serverPreference {
      r := Scan(s, server.ciphers, server.inGroupFlags, client.value);
      if server.Terminated() { AllClosed(s, server.ciphers, server.inGroupFlags, client.value); }
      return;
    }
    // No groups: every cipher is one of its own.
    var alone := seq(|client.value|, _ => 0);
    r := Scan(s, client.value, alone, server.ciphers);
    AllClosed(s, client.value, alone, server.ciphers);
    forall i | 0 <= i < |client.value| ensures GroupOf(alone, i) == i { EachAlone(alone, i); }
    if r.Some? {
      ghost var k: nat :| Best(s, client.value, alone, server.ciphers, k) && r.value == client.value[k];
      assert Usable(s, client.value, server.ciphers, k);
    }
  }
}
