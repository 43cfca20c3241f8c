/** The server's choice of a cipher suite, with groups of equal preference. */
module CipherChoice {
  import opened Wrappers

  datatype KeyExchange = RSA | ECDHE | PSK

  datatype Auth = RsaKey | EcdsaKey | PskKey

  /** A cipher suite, by its number and what makes it usable. */
  datatype Suite = Suite(id: nat, minVersion: nat, maxVersion: nat, keyExchange: KeyExchange, auth: Auth)

  /** The version and what the server's configuration allows. */
  datatype Server = Server(version: nat, keyExchanges: set<KeyExchange>, auths: set<Auth>)

  predicate Supported(sv: Server, c: Suite) {
    c.minVersion <= sv.version <= c.maxVersion && c.keyExchange in sv.keyExchanges && c.auth in sv.auths
  }

  /** Both sides can use the suite. */
  predicate Acceptable(sv: Server, allow: seq<Suite>, c: Suite) {
    Supported(sv, c) && c in allow
  }

  /** The position of a suite in a list: `sk_SSL_CIPHER_find`. */
  function IndexIn(allow: seq<Suite>, c: Suite): (i: nat)
    requires c in allow
    ensures i < |allow| && allow[i] == c && c !in allow[..i]
  {
    if allow[0] == c then 0 else 1 + IndexIn(allow[1..], c)
  }

  /** Whether suite i is in one group with the next. */
  predicate Grouped(flags: Option<seq<bool>>, i: nat) {
    flags.Some? && i < |flags.value| && flags.value[i]
  }

  /** Suites i to j are in one group. */
  ghost predicate SameGroup(flags: Option<seq<bool>>, i: nat, j: nat) {
    forall k :: i <= k < j ==> Grouped(flags, k)
  }

  ghost predicate NoneBefore(sv: Server, prio: seq<Suite>, allow: seq<Suite>, i: nat) {
    forall k :: 0 <= k < i && k < |prio| ==> !Acceptable(sv, allow, prio[k])
  }

  /**
   * The best choice: with i the first acceptable suite of the list, the acceptable suite of the same
   * group that the other side prefers most.
   */
  ghost predicate Best(sv: Server, prio: seq<Suite>, flags: Option<seq<bool>>, allow: seq<Suite>, i: nat, c: Suite) {
    && i < |prio| && Acceptable(sv, allow, prio[i]) && NoneBefore(sv, prio, allow, i)
    && Acceptable(sv, allow, c)
    && (exists j :: i <= j < |prio| && SameGroup(flags, i, j) && prio[j] == c)
    && (forall j :: i <= j < |prio| && SameGroup(flags, i, j) && Acceptable(sv, allow, prio[j]) ==>
          IndexIn(allow, c) <= IndexIn(allow, prio[j]))
  }

  /** The groups from i on end within the list. */
  ghost predicate GroupEnds(prio: seq<Suite>, flags: Option<seq<bool>>, i: nat) {
    exists e :: i <= e < |prio| && !Grouped(flags, e)
  }

  /** The lowest index, in the other list, of the acceptable suites from `first` to `end`. */
  ghost predicate Lowest(sv: Server, prio: seq<Suite>, allow: seq<Suite>, first: nat, end: nat, index: int) {
    && 0 <= index < |allow| && end <= |prio|
    && (exists j :: first <= j < end && prio[j] == allow[index]) && Acceptable(sv, allow, allow[index])
    && IndexIn(allow, allow[index]) == index
    && forall j :: first <= j < end && Acceptable(sv, allow, prio[j]) ==> index <= IndexIn(allow, prio[j])
  }

  /** What the loop knows before position i: nothing acceptable yet, or the group it is in and its lowest index. */
  ghost predicate Seen(sv: Server, prio: seq<Suite>, flags: Option<seq<bool>>, allow: seq<Suite>, first: nat, i: nat, groupMin: int) {
    i <= |prio| &&
    if groupMin == -1 then NoneBefore(sv, prio, allow, i)
    else
      && first < i && SameGroup(flags, first, i) && Acceptable(sv, allow, prio[first]) && NoneBefore(sv, prio, allow, first)
      && Lowest(sv, prio, allow, first, i, groupMin)
  }

  lemma LowestNext(sv: Server, prio: seq<Suite>, flags: Option<seq<bool>>, allow: seq<Suite>, first: nat, i: nat, groupMin: int)
    requires Seen(sv, prio, flags, allow, first, i, groupMin) && i < |prio|
    ensures groupMin == -1 && Acceptable(sv, allow, prio[i]) ==> Lowest(sv, prio, allow, i, i + 1, IndexIn(allow, prio[i]))
    ensures groupMin != -1 && Acceptable(sv, allow, prio[i]) ==>
              Lowest(sv, prio, allow, first, i + 1, if groupMin < IndexIn(allow, prio[i]) then groupMin else IndexIn(allow, prio[i]))
    ensures groupMin != -1 && !Acceptable(sv, allow, prio[i]) ==> Lowest(sv, prio, allow, first, i + 1, groupMin)
  {}

  lemma Chosen(sv: Server, prio: seq<Suite>, flags: Option<seq<bool>>, allow: seq<Suite>, first: nat, i: nat, index: int)
    requires first <= i < |prio| && SameGroup(flags, first, i) && !Grouped(flags, i)
    requires Acceptable(sv, allow, prio[first]) && NoneBefore(sv, prio, allow, first)
    requires Lowest(sv, prio, allow, first, i + 1, index)
    ensures Best(sv, prio, flags, allow, first, allow[index]) && GroupEnds(prio, flags, first)
  {
    assert forall j: nat :: SameGroup(flags, first, j) && j > i ==> Grouped(flags, i);
    var j :| first <= j < i + 1 && prio[j] == allow[index];
    assert SameGroup(flags, first, j);
  }

  lemma Unterminated(sv: Server, prio: seq<Suite>, flags: Option<seq<bool>>, allow: seq<Suite>, first: nat)
    requires first < |prio| && SameGroup(flags, first, |prio|) && NoneBefore(sv, prio, allow, first)
    ensures forall i: nat :: i < |prio| && Acceptable(sv, allow, prio[i]) ==> !GroupEnds(prio, flags, i)
  {}

  /** Whether a list leads to a choice: its first acceptable suite's group ends within it. */
  ghost predicate HasChoice(sv: Server, prio: seq<Suite>, flags: Option<seq<bool>>, allow: seq<Suite>) {
    exists i: nat :: i < |prio| && Acceptable(sv, allow, prio[i]) && GroupEnds(prio, flags, i)
  }

  /** The loop of `ssl3_choose_cipher`. */
  method Pick(sv: Server, prio: seq<Suite>, flags: Option<seq<bool>>, allow: seq<Suite>) returns (choice: Option<Suite>, ghost first: nat)
    ensures choice.Some? ==> Best(sv, prio, flags, allow, first, choice.value)
    ensures choice.Some? <==> HasChoice(sv, prio, flags, allow)
  {
    hide Best, Lowest, GroupEnds;
    var groupMin: int := -1;
    first := 0;
    for i := 0 to |prio|
      invariant -1 <= groupMin < |allow| && Seen(sv, prio, flags, allow, first, i, groupMin)
    {
      LowestNext(sv, prio, flags, allow, first, i, groupMin);
      var c := prio[i];
      if Supported(sv, c) && c in allow {
        var index := IndexIn(allow, c);
        if Grouped(flags, i) {
          if groupMin == -1 {
            first := i;
          }
          if groupMin == -1 || groupMin > index {
            groupMin := index;
          }
        } else {
          if groupMin == -1 {
            first := i;
          } else if groupMin < index {
            index := groupMin;
          }
          Chosen(sv, prio, flags, allow, first, i, index);
          return Some(allow[index]), first;
        }
      }
      if !Grouped(flags, i) && groupMin != -1 {
        Chosen(sv, prio, flags, allow, first, i, groupMin);
        return Some(allow[groupMin]), first;
      }
    }
    if groupMin != -1 {
      Unterminated(sv, prio, flags, allow, first);
    }
    return None, first;
  }

  /** Whether any suite of a list is acceptable. */
  ghost predicate AnyAcceptable(sv: Server, prio: seq<Suite>, allow: seq<Suite>) {
    exists i: nat :: i < |prio| && Acceptable(sv, allow, prio[i])
  }

  /** With a list whose last group is closed, something is chosen exactly when something is acceptable. */
  lemma ClosedListChooses(sv: Server, prio: seq<Suite>, flags: Option<seq<bool>>, allow: seq<Suite>)
    requires prio != [] ==> !Grouped(flags, |prio| - 1)
    ensures HasChoice(sv, prio, flags, allow) <==> AnyAcceptable(sv, prio, allow)
  {
    forall i: nat | i < |prio|
      ensures GroupEnds(prio, flags, i)
    {
      assert !Grouped(flags, |prio| - 1);
    }
  }

  /** Without groups, the best choice is the first acceptable suite. */
  lemma UngroupedIsFirst(sv: Server, prio: seq<Suite>, allow: seq<Suite>, i: nat, c: Suite)
    requires Best(sv, prio, None, allow, i, c)
    ensures c == prio[i] && NoneBefore(sv, prio, allow, i)
  {
    var j :| i <= j < |prio| && SameGroup(None, i, j) && prio[j] == c;
    assert j > i ==> Grouped(None, i);
  }

  lemma NoneInBoth(sv: Server, prio: seq<Suite>, allow: seq<Suite>)
    requires !AnyAcceptable(sv, prio, allow)
    ensures forall c :: c in prio && c in allow ==> !Supported(sv, c)
  {
    forall c | c in prio && c in allow
      ensures !Supported(sv, c)
    {
      var i :| 0 <= i < |prio| && prio[i] == c;
      assert !Acceptable(sv, allow, prio[i]);
    }
  }

  /**
   * `ssl3_choose_cipher`, the client's list parsed. The server's groups count only where the server's
   * preference does; otherwise the client's first acceptable suite is chosen.
   */
  method Choose(sv: Server, clientPref: seq<Suite>, serverPref: seq<Suite>, groups: seq<bool>, preferServer: bool)
    returns (choice: Option<Suite>, ghost i: nat)
    requires |groups| == |serverPref| && (groups != [] ==> !groups[|groups| - 1])
    ensures choice.Some? ==>
              var c := choice.value;
              && c in clientPref && c in serverPref && c.minVersion <= sv.version <= c.maxVersion
              && c.keyExchange in sv.keyExchanges && c.auth in sv.auths
    ensures choice.None? ==>
              forall c :: c in clientPref && c in serverPref && c.minVersion <= sv.version <= c.maxVersion ==>
                c.keyExchange !in sv.keyExchanges || c.auth !in sv.auths
    ensures choice.Some? && preferServer ==> Best(sv, serverPref, Some(groups), clientPref, i, choice.value)
    ensures choice.Some? && !preferServer ==> i < |clientPref| && choice.value == clientPref[i] && NoneBefore(sv, clientPref, serverPref, i)
  {
    var prio, allow, flags := clientPref, serverPref, None;
    if preferServer {
      prio, allow, flags := serverPref, clientPref, Some(groups);
    }
    choice, i := Pick(sv, prio, flags, allow);
    ClosedListChooses(sv, prio, flags, allow);
    if choice.None? {
      NoneInBoth(sv, prio, allow);
    }
    if choice.Some? && !preferServer {
      UngroupedIsFirst(sv, prio, allow, i, choice.value);
    }
  }
}
