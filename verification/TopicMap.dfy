/**
 The two routing maps between the name a screen asked for and the name the
 server derived from it.  A JavaScript `Set` is a sequence without repeats, in
 insertion order.
 */
module TopicMaps {
  import opened Options
  import opened Protocol
  import opened Sequences

  function Add(names: seq<string>, name: string): seq<string> {
    if name in names then names else names + [name]
  }

  function Remove(names: seq<string>, name: string): (r: seq<string>)
    ensures forall n :: n in r <==> n in names && n != name
    ensures NoRepeats(names) ==> NoRepeats(r)
  {
    if names == [] then []
    else
      var rest := Remove(names[1..], name);
      assert NoRepeats(names) ==> NoRepeats(names[1..]) && names[0] !in names[1..];
      if names[0] == name then rest else [names[0]] + rest
  }

  datatype Routes = Routes(derivedOf: map<string, string>, requestedOf: map<string, seq<string>>) {

    function NamesOf(derived: string): seq<string> {
      if derived in requestedOf then requestedOf[derived] else []
    }

    function Link(requested: string, derived: string): Routes {
      Routes(derivedOf[requested := derived], requestedOf[derived := Add(NamesOf(derived), requested)])
    }

    /** An empty derived name is falsy: only the first map lets go of it. */
    function Forget(requested: string): Routes {
      if requested !in derivedOf then this else
        var derived := derivedOf[requested];
        var rest := Remove(NamesOf(derived), requested);
        Routes(
          derivedOf - {requested},
          if derived == "" || derived !in requestedOf then requestedOf
          else if rest == [] then requestedOf - {derived}
          else requestedOf[derived := rest])
    }

    function LinkAll(aliases: seq<(string, string)>): Routes
      decreases aliases
    {
      if aliases == [] then this else Link(aliases[0].0, aliases[0].1).LinkAll(aliases[1..])
    }

    function Claim(derived: string): Routes {
      if derived in requestedOf then this else Link(derived, derived)
    }

    function ClaimAll(subscribed: seq<string>): Routes
      decreases subscribed
    {
      if subscribed == [] then this else Claim(subscribed[0]).ClaimAll(subscribed[1..])
    }

    function ApplyAck(ack: SubscribeAck): Routes {
      LinkAll(ack.aliases).ClaimAll(ack.subscribed)
    }

    /** Every registered name a frame on `topic` is dispatched to. */
    function Listeners(topic: Option<string>): seq<string> {
      if topic == None || topic.value == "" then []
      else if NamesOf(topic.value) == [] then [topic.value]
      else NamesOf(topic.value)
    }

    /** `requestedOf` is exactly the non-empty preimage of `derivedOf`. */
    ghost predicate Inverse() {
      && (forall d :: d in requestedOf ==> requestedOf[d] != [] && NoRepeats(requestedOf[d]))
      && (forall d, r :: d in requestedOf && r in requestedOf[d] ==> r in derivedOf && derivedOf[r] == d)
      && (forall r :: r in derivedOf ==> derivedOf[r] in requestedOf && r in requestedOf[derivedOf[r]])
    }
  }

  const EMPTY: Routes := Routes(map[], map[])

  datatype Change = Acked(ack: SubscribeAck) | Forgotten(requested: string)

  function RunChanges(changes: seq<Change>): Routes {
    if changes == [] then EMPTY else
      var before := RunChanges(changes[..|changes| - 1]);
      match changes[|changes| - 1]
      case Acked(ack) => before.ApplyAck(ack)
      case Forgotten(requested) => before.Forget(requested)
  }

  /** No alias in the list renames a name that is already derived differently. */
  predicate SteadyAliases(m: Routes, aliases: seq<(string, string)>)
    decreases aliases
  {
    aliases == [] ||
    (var (r, d) := aliases[0];
     (r in m.derivedOf ==> m.derivedOf[r] == d) && SteadyAliases(m.Link(r, d), aliases[1..]))
  }

  /** No name the ack claims as its own is already derived to another. */
  predicate SteadyClaims(m: Routes, subscribed: seq<string>)
    decreases subscribed
  {
    subscribed == [] ||
    (var d := subscribed[0];
     (d !in m.requestedOf && d in m.derivedOf ==> m.derivedOf[d] == d) && SteadyClaims(m.Claim(d), subscribed[1..]))
  }

  predicate SteadyAck(m: Routes, ack: SubscribeAck) {
    SteadyAliases(m, ack.aliases) && SteadyClaims(m.LinkAll(ack.aliases), ack.subscribed)
  }

  /** A run that never derives one name twice without forgetting it, and never forgets the empty topic. */
  predicate Steady(changes: seq<Change>) {
    changes == [] ||
    (var before := changes[..|changes| - 1];
     Steady(before) &&
     match changes[|changes| - 1]
     case Acked(ack) => SteadyAck(RunChanges(before), ack)
     case Forgotten(r) => r in RunChanges(before).derivedOf ==> RunChanges(before).derivedOf[r] != "")
  }

  /** Linking keeps the maps inverse exactly when it does not rename. */
  lemma LinkKeepsInverse(m: Routes, requested: string, derived: string)
    requires m.Inverse()
    ensures m.Link(requested, derived).Inverse() <==>
              (requested in m.derivedOf ==> m.derivedOf[requested] == derived)
  {
    var m' := m.Link(requested, derived);
    if requested in m.derivedOf && m.derivedOf[requested] != derived {
      var stale := m.derivedOf[requested];
      assert stale in m'.requestedOf && requested in m'.requestedOf[stale];
      assert m'.derivedOf[requested] == derived;
    } else {
      assert m'.requestedOf[derived] == Add(m.NamesOf(derived), requested);
      assert NoRepeats(m'.requestedOf[derived]);
      assert m'.Inverse();
    }
  }

  /** Forgetting keeps them inverse exactly when the derived name is not the falsy empty one. */
  lemma ForgetKeepsInverse(m: Routes, requested: string)
    requires m.Inverse()
    ensures m.Forget(requested).Inverse() <==>
              (requested in m.derivedOf ==> m.derivedOf[requested] != "")
    ensures requested !in m.Forget(requested).derivedOf
  {
    if requested in m.derivedOf && m.derivedOf[requested] == "" {
      assert requested in m.Forget(requested).requestedOf[""];
    }
  }

  lemma {:induction false} LinkAllKeepsInverse(m: Routes, aliases: seq<(string, string)>)
    requires m.Inverse() && SteadyAliases(m, aliases)
    ensures m.LinkAll(aliases).Inverse()
    ensures forall r :: r in m.derivedOf ==>
              r in m.LinkAll(aliases).derivedOf && m.LinkAll(aliases).derivedOf[r] == m.derivedOf[r]
    ensures forall a :: a in aliases ==>
              a.0 in m.LinkAll(aliases).derivedOf && m.LinkAll(aliases).derivedOf[a.0] == a.1
    ensures forall r :: r in m.LinkAll(aliases).derivedOf ==>
              r in m.derivedOf || (r, m.LinkAll(aliases).derivedOf[r]) in aliases
    decreases aliases
  {
    if aliases != [] {
      LinkKeepsInverse(m, aliases[0].0, aliases[0].1);
      LinkAllKeepsInverse(m.Link(aliases[0].0, aliases[0].1), aliases[1..]);
    }
  }

  lemma {:induction false} ClaimAllKeepsInverse(m: Routes, subscribed: seq<string>)
    requires m.Inverse() && SteadyClaims(m, subscribed)
    ensures m.ClaimAll(subscribed).Inverse()
    decreases subscribed
  {
    if subscribed != [] {
      LinkKeepsInverse(m, subscribed[0], subscribed[0]);
      ClaimAllKeepsInverse(m.Claim(subscribed[0]), subscribed[1..]);
    }
  }

  /** A claim gives a name its own topic only where nobody holds that topic yet. */
  lemma {:induction false} ClaimedNames(m: Routes, subscribed: seq<string>, r: string)
    requires m.Inverse() && SteadyClaims(m, subscribed)
    ensures var m' := m.ClaimAll(subscribed);
            && (r in m.requestedOf ==> r in m'.requestedOf)
            && (r in m.derivedOf ==> r in m'.derivedOf && m'.derivedOf[r] == m.derivedOf[r])
            && (r in subscribed && r !in m.requestedOf ==> r in m'.derivedOf && m'.derivedOf[r] == r)
            && (r in m.requestedOf && r !in m.derivedOf ==> r !in m'.derivedOf)
    decreases subscribed
  {
    if subscribed != [] {
      LinkKeepsInverse(m, subscribed[0], subscribed[0]);
      ClaimedNames(m.Claim(subscribed[0]), subscribed[1..], r);
    }
  }

  /** In every steady run the two maps stay inverse. */
  lemma {:induction false} MapsStayInverse(changes: seq<Change>)
    requires Steady(changes)
    ensures RunChanges(changes).Inverse()
  {
    if changes != [] {
      var before := changes[..|changes| - 1];
      MapsStayInverse(before);
      match changes[|changes| - 1]
      case Acked(ack) =>
        LinkAllKeepsInverse(RunChanges(before), ack.aliases);
        ClaimAllKeepsInverse(RunChanges(before).LinkAll(ack.aliases), ack.subscribed);
      case Forgotten(r) => ForgetKeepsInverse(RunChanges(before), r);
    }
  }

  /** How often a frame on `topic` is dispatched to `name`. */
  function TimesRouted(m: Routes, topic: string, name: string): nat {
    multiset(m.Listeners(Some(topic)))[name]
  }

  lemma {:induction false} NoRepeatsCount(names: seq<string>, name: string)
    requires NoRepeats(names)
    ensures multiset(names)[name] == if name in names then 1 else 0
  {
    if names != [] {
      assert names == [names[0]] + names[1..];
      NoRepeatsCount(names[1..], name);
    }
  }

  /** Frames reach each name derived to their topic exactly once, and no other linked name. */
  lemma RoutedExactlyOnce(m: Routes, topic: string, name: string)
    requires m.Inverse() && topic != "" && name in m.derivedOf
    ensures TimesRouted(m, topic, name) ==
              if m.derivedOf[name] == topic || (topic !in m.requestedOf && name == topic) then 1 else 0
  {
    NoRepeatsCount(m.Listeners(Some(topic)), name);
  }

  /** The answer to a subscribe: every granted name, renamed or not. */
  predicate Answers(ack: SubscribeAck, granted: seq<(string, string)>) {
    && (forall a :: a in ack.aliases ==> a in granted && a.0 != a.1)
    && (forall g :: g in granted ==> g.1 in ack.subscribed && (g.0 != g.1 ==> g in ack.aliases))
  }

  /**
   After its ack a granted name is routed each frame of its topic exactly once -
   if and only if it was renamed, or no other name already holds that topic.
   */
  lemma AckedNameIsRoutedOnce(m: Routes, ack: SubscribeAck, granted: seq<(string, string)>, g: (string, string))
    requires m.Inverse() && SteadyAck(m, ack) && Answers(ack, granted)
    requires g in granted && g.1 != ""
    ensures var aliased := m.LinkAll(ack.aliases);
            TimesRouted(m.ApplyAck(ack), g.1, g.0) == 1 <==>
            (g.0 != g.1 || g.1 !in aliased.requestedOf || g.1 in aliased.requestedOf[g.1])
  {
    var aliased := m.LinkAll(ack.aliases);
    LinkAllKeepsInverse(m, ack.aliases);
    ClaimAllKeepsInverse(aliased, ack.subscribed);
    ClaimedNames(aliased, ack.subscribed, g.0);
    var after := m.ApplyAck(ack);
    NoRepeatsCount(after.Listeners(Some(g.1)), g.0);
  }

  // ------------------------------------------------------------------ //
  // One link and one forget, name by name
  // ------------------------------------------------------------------ //

  /** A link changes one name; every other name and every other topic's listeners are as they were. */
  lemma LinkLinksOne(m: Routes, requested: string, derived: string, name: string, topic: string)
    ensures var m' := m.Link(requested, derived);
            && (name in m'.derivedOf <==> name == requested || name in m.derivedOf)
            && m'.derivedOf[requested] == derived
            && (name != requested && name in m.derivedOf ==> m'.derivedOf[name] == m.derivedOf[name])
            && (name in m'.NamesOf(topic) <==> name in m.NamesOf(topic) || (topic == derived && name == requested))
            && (topic != derived ==> m'.NamesOf(topic) == m.NamesOf(topic))
            && m.NamesOf(derived) <= m'.NamesOf(derived)
  {
  }

  /** A forget drops one name; every other keeps its topic, and is routed its frames as before. */
  lemma ForgetForgetsOne(m: Routes, requested: string, name: string)
    ensures var m' := m.Forget(requested);
            && (name in m'.derivedOf <==> name in m.derivedOf && name != requested)
            && (name in m'.derivedOf ==> m'.derivedOf[name] == m.derivedOf[name])
    ensures name != requested ==>
              forall t :: name in m.Forget(requested).NamesOf(t) <==> name in m.NamesOf(t)
    ensures forall t :: NoRepeats(m.NamesOf(t)) ==> NoRepeats(m.Forget(requested).NamesOf(t))
  {
  }

  /** Each linked name is among the listeners of its topic, once. */
  ghost predicate Listening(m: Routes) {
    && (forall t :: NoRepeats(m.NamesOf(t)))
    && forall r :: r in m.derivedOf ==> r in m.NamesOf(m.derivedOf[r])
  }

  lemma ForgetKeepsListening(m: Routes, requested: string)
    requires Listening(m)
    ensures Listening(m.Forget(requested))
  {
    ForgetForgetsOne(m, requested, requested);
    forall r | r in m.Forget(requested).derivedOf
      ensures r in m.Forget(requested).NamesOf(m.Forget(requested).derivedOf[r])
    {
      ForgetForgetsOne(m, requested, r);
    }
  }

  /** Whoever else shared the forgotten name's topic is still routed each of its frames once. */
  lemma ForgottenOthersStayRouted(m: Routes, requested: string, name: string)
    requires Listening(m) && name in m.derivedOf && name != requested && m.derivedOf[name] != ""
    ensures name in m.Forget(requested).derivedOf
    ensures TimesRouted(m.Forget(requested), m.derivedOf[name], name) == 1
  {
    ForgetKeepsListening(m, requested);
    ForgetForgetsOne(m, requested, name);
    NoRepeatsCount(m.Forget(requested).Listeners(Some(m.derivedOf[name])), name);
  }

  lemma InverseListens(m: Routes)
    requires m.Inverse()
    ensures Listening(m)
  {
  }

  // ------------------------------------------------------------------ //
  // What a run leaves, from its acks and forgets alone
  // ------------------------------------------------------------------ //

  /** The topic the ack's last alias for `name` gives it, if one does. */
  function AliasOf(aliases: seq<(string, string)>, name: string): Option<string> {
    if aliases == [] then None
    else if aliases[|aliases| - 1].0 == name then Some(aliases[|aliases| - 1].1)
    else AliasOf(aliases[..|aliases| - 1], name)
  }

  /**
   The topic `name` goes by after the changes: what the last ack linking it since
   its last forget gave it.  An ack links a name by an alias, or as its own topic
   where no name goes by that topic yet.
   */
  ghost function Given(changes: seq<Change>, name: string): Option<string>
    decreases |changes|, 0
  {
    if changes == [] then None else
      var n := |changes| - 1;
      match changes[n]
      case Forgotten(requested) => if name == requested then None else Given(changes[..n], name)
      case Acked(ack) =>
        if AliasOf(ack.aliases, name).Some? then AliasOf(ack.aliases, name)
        else if name in ack.subscribed && !Taken(changes[..n], ack.aliases, name) then Some(name)
        else Given(changes[..n], name)
  }

  /** The topic a name goes by after the changes and these aliases. */
  ghost function GoesBy(changes: seq<Change>, aliases: seq<(string, string)>, name: string): Option<string>
    decreases |changes|, 1
  {
    if AliasOf(aliases, name).Some? then AliasOf(aliases, name) else Given(changes, name)
  }

  ghost predicate Taken(changes: seq<Change>, aliases: seq<(string, string)>, topic: string)
    decreases |changes|, 2
  {
    exists r: string :: GoesBy(changes, aliases, r) == Some(topic)
  }

  function DerivedBy(m: Routes, name: string): Option<string> {
    if name in m.derivedOf then Some(m.derivedOf[name]) else None
  }

  lemma {:induction false} LinkAllRecords(m: Routes, aliases: seq<(string, string)>, name: string)
    ensures DerivedBy(m.LinkAll(aliases), name)
            == if AliasOf(aliases, name).Some? then AliasOf(aliases, name) else DerivedBy(m, name)
    decreases |aliases|
  {
    if aliases != [] {
      LinkAllRecords(m, aliases[..|aliases| - 1], name);
      LinkAllLast(m, aliases);
    }
  }

  lemma {:induction false} LinkAllLast(m: Routes, aliases: seq<(string, string)>)
    requires aliases != []
    ensures var n := |aliases| - 1;
            m.LinkAll(aliases) == m.LinkAll(aliases[..n]).Link(aliases[n].0, aliases[n].1)
    decreases |aliases|
  {
    if |aliases| > 1 {
      LinkAllLast(m.Link(aliases[0].0, aliases[0].1), aliases[1..]);
      assert aliases[1..][..|aliases| - 2] == aliases[..|aliases| - 1][1..];
    } else {
      assert aliases[1..] == [];
    }
  }

  lemma {:induction false} ClaimAllRecords(m: Routes, subscribed: seq<string>, name: string)
    ensures DerivedBy(m.ClaimAll(subscribed), name)
            == if name in subscribed && name !in m.requestedOf then Some(name) else DerivedBy(m, name)
    decreases |subscribed|
  {
    if subscribed != [] {
      ClaimAllRecords(m.Claim(subscribed[0]), subscribed[1..], name);
    }
  }

  /** In every steady run the map holds for each name what the run gave it. */
  lemma {:induction false} NamesGoByWhatWasGiven(changes: seq<Change>, name: string)
    requires Steady(changes)
    ensures Given(changes, name) == DerivedBy(RunChanges(changes), name)
    decreases |changes|, 0
  {
    if changes != [] {
      var n := |changes| - 1;
      NamesGoByWhatWasGiven(changes[..n], name);
      match changes[n]
      case Forgotten(requested) => ForgetForgetsOne(RunChanges(changes[..n]), requested, name);
      case Acked(ack) => AckGives(changes[..n], ack, name);
    }
  }

  lemma {:induction false} AckGives(before: seq<Change>, ack: SubscribeAck, name: string)
    requires Steady(before) && SteadyAck(RunChanges(before), ack)
    requires Given(before, name) == DerivedBy(RunChanges(before), name)
    ensures DerivedBy(RunChanges(before).ApplyAck(ack), name)
            == if AliasOf(ack.aliases, name).Some? then AliasOf(ack.aliases, name)
               else if name in ack.subscribed && !Taken(before, ack.aliases, name) then Some(name)
               else Given(before, name)
    decreases |before|, 2
  {
    var linked := RunChanges(before).LinkAll(ack.aliases);
    LinkAllRecords(RunChanges(before), ack.aliases, name);
    ClaimAllRecords(linked, ack.subscribed, name);
    MapsStayInverse(before);
    LinkAllKeepsInverse(RunChanges(before), ack.aliases);
    ClaimedNames(linked, ack.subscribed, name);
    TakenIsHeld(before, ack.aliases, name);
  }

  lemma {:induction false} TakenIsHeld(changes: seq<Change>, aliases: seq<(string, string)>, topic: string)
    requires Steady(changes) && RunChanges(changes).LinkAll(aliases).Inverse()
    ensures Taken(changes, aliases, topic) <==> topic in RunChanges(changes).LinkAll(aliases).requestedOf
    decreases |changes|, 1
  {
    var linked := RunChanges(changes).LinkAll(aliases);
    forall r: string ensures GoesBy(changes, aliases, r) == DerivedBy(linked, r) {
      NamesGoByWhatWasGiven(changes, r);
      LinkAllRecords(RunChanges(changes), aliases, r);
    }
    if topic in linked.requestedOf {
      var r := linked.requestedOf[topic][0];
      assert r in linked.requestedOf[topic] && GoesBy(changes, aliases, r) == Some(topic);
    }
  }

  class TopicMap {
    var derivedOf: map<string, string>
    var requestedOf: map<string, seq<string>>

    ghost function View(): Routes
      reads this
    {
      Routes(derivedOf, requestedOf)
    }

    constructor ()
      ensures View() == EMPTY
    {
      derivedOf, requestedOf := map[], map[];
    }

    method Link(requested: string, derived: string)
      modifies this
      ensures View() == old(View()).Link(requested, derived)
    {
      derivedOf := derivedOf[requested := derived];
      var names := if derived in requestedOf then requestedOf[derived] else [];
      if requested !in names { names := names + [requested]; }
      requestedOf := requestedOf[derived := names];
    }

    /** Take over the aliases of one ack, then claim the names it granted without one. */
    method ApplyAck(ack: SubscribeAck)
      modifies this
      ensures View() == old(View()).ApplyAck(ack)
    {
      for i := 0 to |ack.aliases|
        invariant old(View()).LinkAll(ack.aliases) == View().LinkAll(ack.aliases[i..])
      {
        Link(ack.aliases[i].0, ack.aliases[i].1);
      }
      for i := 0 to |ack.subscribed|
        invariant old(View()).ApplyAck(ack) == View().ClaimAll(ack.subscribed[i..])
      {
        if ack.subscribed[i] !in requestedOf {
          Link(ack.subscribed[i], ack.subscribed[i]);
        }
      }
    }

    method Forget(requested: string)
      modifies this
      ensures View() == old(View()).Forget(requested)
      ensures derivedOf == old(derivedOf) - {requested}
      ensures forall n, t :: n != requested ==> (n in View().NamesOf(t) <==> n in old(View()).NamesOf(t))
    {
      if requested !in derivedOf { return; }
      var derived := derivedOf[requested];
      derivedOf := derivedOf - {requested};
      if derived == "" || derived !in requestedOf { return; }
      var names := Remove(requestedOf[derived], requested);
      requestedOf := if names == [] then requestedOf - {derived} else requestedOf[derived := names];
    }

    method Listeners(topic: Option<string>) returns (names: seq<string>)
      ensures names == View().Listeners(topic)
    {
      if topic == None || topic.value == "" { return []; }
      if topic.value !in requestedOf || requestedOf[topic.value] == [] { return [topic.value]; }
      return requestedOf[topic.value];
    }
  }
}
