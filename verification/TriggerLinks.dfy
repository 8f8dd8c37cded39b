/**
  The armed/fired identity of price-triggered orders (gateio_nt/execution.py). Gate.io arms an
  order under one id and fires it under another; three indexes share one mutable link object
  per order, and are kept mutually inverse.
*/
module TriggerLinks {
  import opened Basics

  /** GateioTriggerLink: the armed id is fixed, the fired id arrives later and may be replaced. */
  class Link {
    const armedId: nat
    const client: nat
    var firedId: Option<nat>

    constructor (armedId: nat, client: nat)
      ensures this.armedId == armedId && this.client == client && firedId == None
    {
      this.armedId, this.client, this.firedId := armedId, client, None;
    }
  }

  lemma NothingToDrop<V>(m: map<nat, V>, key: nat)
    requires key !in m
    ensures m - {key} == m
  {
  }

  /** What the indexes say about one client order. */
  datatype Identity = Identity(armed: nat, fired: Option<nat>)

  // -- the reference: one map from client order to its two ids -----------

  /**
    What a caller may do. `Capture` takes hold of an order's link before an await, and
    `AttachHeld` attaches through a link held since, whatever has become of its order.
  */
  datatype Command =
    | Register(client: nat, armed: nat, fired: Option<nat>)
    | Attach(client: nat, firedId: nat)
    | Forget(client: nat)
    | Capture(client: nat)
    | AttachHeld(handle: nat, firedId: nat)

  /** A held link: still its order's own, or left over with the fired id it had when forgotten. */
  datatype Handle = Handle(client: nat, live: bool, fired: Option<nat>)

  datatype Reference = Reference(live: map<nat, Identity>, held: seq<Handle>)

  const NOTHING := Reference(map[], [])

  function References(commands: seq<Command>): Reference {
    if commands == [] then NOTHING else
    StepReference(References(commands[..|commands| - 1]), commands[|commands| - 1])
  }

  function StepReference(r: Reference, c: Command): Reference {
    match c
    case Register(client, armed, fired) => r.(live := Registered(r.live, client, armed, fired))
    case Attach(client, fired) => r.(live := Attached(r.live, client, fired))
    case Forget(client) => Reference(r.live - {client}, LetGo(r.held, client, r.live))
    case Capture(client) => if client in r.live then r.(held := r.held + [Handle(client, true, None)]) else r
    case AttachHeld(k, fired) =>
      if k < |r.held| && r.held[k].live then r.(live := Attached(r.live, r.held[k].client, fired)) else r
  }

  function Registered(live: map<nat, Identity>, client: nat, armed: nat, fired: Option<nat>): map<nat, Identity> {
    var was := if client in live && live[client].armed == armed then live[client] else Identity(armed, None);
    live[client := if fired.Some? then was.(fired := fired) else was]
  }

  function Attached(live: map<nat, Identity>, client: nat, fired: nat): map<nat, Identity> {
    if client in live then live[client := live[client].(fired := Some(fired))] else live
  }

  /** The links of a forgotten order stay with whoever holds them. */
  function LetGo(held: seq<Handle>, client: nat, live: map<nat, Identity>): seq<Handle> {
    seq(|held|, i requires 0 <= i < |held| =>
      if held[i].client == client && held[i].live && client in live
      then Handle(client, false, live[client].fired) else held[i])
  }

  /**
    What a registration says of its order: the armed id, and the fired id it states or the one the
    order already had under that armed id. It says nothing of any other order.
  */
  lemma RegisteredStates(live: map<nat, Identity>, client: nat, armed: nat, fired: Option<nat>)
    ensures var now := Registered(live, client, armed, fired);
            && now.Keys == live.Keys + {client}
            && now[client].armed == armed
            && (fired.Some? ==> now[client].fired == fired)
            && (fired.None? ==>
                  now[client].fired ==
                    if client in live && live[client].armed == armed then live[client].fired else None)
            && forall c <- live :: c != client ==> now[c] == live[c]
  {
    var now := Registered(live, client, armed, fired);
    assert now.Keys == live.Keys + {client};
  }

  lemma FiredAfterArmed(live: map<nat, Identity>, client: nat, armed: nat, firedId: nat)
    ensures Registered(live, client, armed, Some(firedId))
         == Registered(live, client, armed, None)[client := Identity(armed, Some(firedId))]
  {
  }

  /** The venue's side: one armed id per client order, and every venue id belongs to one order. */
  predicate VenueIssued(r: Reference, c: Command, armedOf: nat -> nat, ownerOf: nat -> nat) {
    match c
    case Register(client, armed, fired) =>
      armedOf(client) == armed && ownerOf(armed) == client
      && (fired.Some? ==> ownerOf(fired.value) == client && fired.value != armed)
    case Attach(client, fired) => ownerOf(fired) == client && fired != armedOf(client)
    case Forget(_) => true
    case Capture(_) => true
    case AttachHeld(k, fired) =>
      k < |r.held| ==> ownerOf(fired) == r.held[k].client && fired != armedOf(r.held[k].client)
  }

  /** The attach that breaks the indexes: through a left-over link, with another id than it already has. */
  predicate Breaks(r: Reference, c: Command) {
    c.AttachHeld? && c.handle < |r.held| && !r.held[c.handle].live && r.held[c.handle].fired != Some(c.firedId)
  }

  // -- the indexes -------------------------------------------------------

  class TriggerIndex {
    var links: map<nat, Link>
    var byArmed: map<nat, Link>
    var byFired: map<nat, Link>
    var attempts: set<nat>

    constructor ()
      ensures Coherent() && View() == map[] && links == map[] && byArmed == map[] && byFired == map[] && attempts == {}
    {
      links, byArmed, byFired, attempts := map[], map[], map[], {};
    }

    /** The link is the one its own client order is registered under. */
    ghost predicate Live(link: Link)
      reads this`links
    {
      LiveIn(links, link)
    }

    static ghost predicate LiveIn(links: map<nat, Link>, link: Link) {
      link.client in links && links[link.client] == link
    }

    ghost predicate Keyed()
      reads this`links
    {
      forall c <- links :: links[c].client == c
    }

    /** An armed id whose link is not live, a live link its armed id does not lead to, or an id of both kinds. */
    ghost predicate ArmedBroken()
      reads this`links, this`byArmed, this`byFired
    {
      || (exists a <- byArmed :: !LiveIn(links, byArmed[a]))
      || (exists c <- links :: links[c].armedId !in byArmed || byArmed[links[c].armedId] != links[c])
      || (exists a <- byArmed :: a in byFired)
    }

    /** The three indexes are mutually inverse, and no venue id is both armed and fired. */
    ghost predicate Coherent()
      reads this`links, this`byArmed, this`byFired, links.Values`firedId, byFired.Values`firedId
    {
      Inverse(links, byArmed, byFired)
    }

    static ghost predicate Inverse(links: map<nat, Link>, byArmed: map<nat, Link>, byFired: map<nat, Link>)
      reads links.Values`firedId, byFired.Values`firedId
    {
      && (forall c <- links :: links[c].client == c)
      && (forall c <- links :: links[c].armedId in byArmed && byArmed[links[c].armedId] == links[c])
      && (forall c <- links :: links[c].firedId.Some? ==>
            links[c].firedId.value in byFired && byFired[links[c].firedId.value] == links[c])
      && (forall a <- byArmed :: byArmed[a].armedId == a && LiveIn(links, byArmed[a]))
      && (forall f <- byFired :: byFired[f].firedId == Some(f) && LiveIn(links, byFired[f]))
      && byArmed.Keys !! byFired.Keys
    }

    /** What the client index says, order by order. */
    function View(): map<nat, Identity>
      reads this`links, links.Values`firedId
    {
      IdentitiesOf(links)
    }

    static function IdentitiesOf(links: map<nat, Link>): map<nat, Identity>
      reads links.Values`firedId
    {
      map c | c in links :: Identity(links[c].armedId, links[c].firedId)
    }

    /** What a caller can check before attaching: the link is live and the id is nobody else's. */
    ghost predicate MayAttach(link: Link, firedId: nat)
      reads this`links, this`byArmed, this`byFired, link`firedId
    {
      link.firedId == Some(firedId) || (Live(link) && firedId !in byArmed && firedId !in byFired)
    }

    /** The statements that give a link its fired id, in place of the one it had. */
    method IndexFired(link: Link, firedId: nat)
      modifies this`byFired, link`firedId
      ensures link.firedId == Some(firedId)
      ensures byFired ==
                old(if link.firedId.Some? then byFired - {link.firedId.value} else byFired)[firedId := link]
    {
      if link.firedId.Some? {
        byFired := byFired - {link.firedId.value};
      }
      link.firedId := Some(firedId);
      byFired := byFired[firedId := link];
    }

    /**
      `_attach_fired_order_id`. The indexes stay coherent exactly when the link is still live and
      the id is nobody else's; attaching to a link that was forgotten meanwhile breaks them.
    */
    method AttachFired(link: Link, firedId: nat)
      modifies this`byFired, link`firedId
      ensures link.firedId == Some(firedId)
      ensures byFired ==
                if old(link.firedId) == Some(firedId) then old(byFired)
                else old(if link.firedId.Some? then byFired - {link.firedId.value} else byFired)[firedId := link]
      ensures old(Coherent()) ==> (Coherent() <==> old(MayAttach(link, firedId)))
      ensures old(Keyed() && Live(link)) ==>
                View() == old(View())[link.client := Identity(link.armedId, Some(firedId))]
    {
      if link.firedId == Some(firedId) {
        return;
      }
      ghost var coherent, was, had := Coherent(), byFired, link.firedId;
      if coherent {
        CoherentBefore(link);
      }
      IndexFired(link, firedId);
      if coherent {
        AttachDecides(link, firedId, was, had);
      }
    }

    lemma CoherentBefore(link: Link)
      requires Coherent()
      ensures WasCoherent(link, byFired, link.firedId)
    {
    }

    /** The indexes were coherent when the fired ids were indexed as `was` and this link had `had`. */
    ghost predicate WasCoherent(link: Link, was: map<nat, Link>, had: Option<nat>)
      reads this`links, this`byArmed, links.Values`firedId, was.Values`firedId
    {
      && Keyed()
      && (forall c <- links :: links[c].armedId in byArmed && byArmed[links[c].armedId] == links[c])
      && (forall a <- byArmed :: byArmed[a].armedId == a && Live(byArmed[a]))
      && (forall c <- links :: links[c] != link && links[c].firedId.Some? ==>
            links[c].firedId.value in was && was[links[c].firedId.value] == links[c])
      && (Live(link) && had.Some? ==> had.value in was && was[had.value] == link)
      && (forall f <- was :: Live(was[f]) && (if was[f] == link then had else was[f].firedId) == Some(f))
      && byArmed.Keys !! was.Keys
    }

    ghost predicate NowAttached(link: Link, firedId: nat, was: map<nat, Link>, had: Option<nat>)
      reads this`byFired, link`firedId
    {
      link.firedId == Some(firedId) && byFired == (if had.Some? then was - {had.value} else was)[firedId := link]
    }

    lemma AttachCompletes(link: Link, firedId: nat, was: map<nat, Link>, had: Option<nat>)
      requires WasCoherent(link, was, had) && NowAttached(link, firedId, was, had)
      requires Live(link) && firedId !in byArmed && firedId !in was
      ensures Coherent()
    {
      assert forall f <- byFired :: f == firedId || f in was;
    }

    lemma AttachBreaks(link: Link, firedId: nat, was: map<nat, Link>, had: Option<nat>)
      requires WasCoherent(link, was, had) && NowAttached(link, firedId, was, had) && had != Some(firedId)
      requires !Live(link) || firedId in byArmed || firedId in was
      ensures !Coherent()
    {
      assert byFired[firedId] == link && firedId in byFired.Keys;
      if Live(link) && firedId in was {
        assert links[was[firedId].client] == was[firedId];
      }
    }

    lemma AttachDecides(link: Link, firedId: nat, was: map<nat, Link>, had: Option<nat>)
      requires WasCoherent(link, was, had) && NowAttached(link, firedId, was, had) && had != Some(firedId)
      ensures Coherent() <==> Live(link) && firedId !in byArmed && firedId !in was
    {
      if Live(link) && firedId !in byArmed && firedId !in was {
        AttachCompletes(link, firedId, was, had);
      } else {
        AttachBreaks(link, firedId, was, had);
      }
    }

    lemma ArmedBrokenIsIncoherent()
      requires ArmedBroken()
      ensures !Coherent()
    {
      if exists a <- byArmed :: a in byFired {
        var a :| a in byArmed && a in byFired;
        assert a in byArmed.Keys && a in byFired.Keys;
      }
    }

    /** What a caller can check before registering: no other armed id, and neither id anyone else's. */
    ghost predicate MayRegister(armed: nat, client: nat, fired: Option<nat>)
      reads this`links, this`byArmed, this`byFired, links.Values`firedId
    {
      MayRegisterFrom(links, byArmed, armed, client, fired)
    }

    ghost predicate MayRegisterFrom(links: map<nat, Link>, byArmed: map<nat, Link>, armed: nat, client: nat,
                                    fired: Option<nat>)
      reads this`byFired, links.Values`firedId
    {
      if client in links then
        && links[client].armedId == armed
        && (fired.Some? ==> links[client].firedId == fired || (fired.value !in byArmed && fired.value !in byFired))
      else
        && armed !in byArmed && armed !in byFired
        && (fired.Some? ==> fired.value != armed && fired.value !in byArmed && fired.value !in byFired)
    }

    /** This is the link of the client order under this armed id, found or created from what was indexed. */
    ghost predicate FoundOrCreated(link: Link, armed: nat, client: nat, was: map<nat, Link>, wasArmed: map<nat, Link>)
      reads this`links, this`byArmed, link`firedId
    {
      && link.armedId == armed && link.client == client
      && if client in was && was[client].armedId == armed
         then link == was[client] && links == was && byArmed == wasArmed
         else link.firedId == None && links == was[client := link] && byArmed == wasArmed[armed := link]
    }

    /** Whether the fired id may be attached to it was decided before it was found or created. */
    lemma RegisterDecides(link: Link, armed: nat, client: nat, fired: Option<nat>, was: map<nat, Link>,
                          wasArmed: map<nat, Link>)
      requires FoundOrCreated(link, armed, client, was, wasArmed)
      ensures
        var free := if client in was then was[client].armedId == armed else armed !in wasArmed && armed !in byFired;
        MayRegisterFrom(was, wasArmed, armed, client, fired) ==
          (free && (fired.Some? ==> MayAttach(link, fired.value)))
    {
    }

    lemma RegisteredView(link: Link, armed: nat, client: nat, was: map<nat, Link>, wasArmed: map<nat, Link>)
      requires FoundOrCreated(link, armed, client, was, wasArmed)
      ensures View() == Registered(IdentitiesOf(was), client, armed, None)
    {
    }

    /** The link of a client order under this armed id, created if it is not there. */
    method FindOrCreate(armed: nat, client: nat) returns (link: Link)
      requires Coherent()
      modifies this`links, this`byArmed
      ensures client in links && links[client] == link && link.armedId == armed && link.client == client
      ensures if old(client in links && links[client].armedId == armed)
              then link == old(links)[client] && links == old(links) && byArmed == old(byArmed)
              else fresh(link) && link.firedId == None
                   && links == old(links)[client := link] && byArmed == old(byArmed)[armed := link]
      ensures Coherent() <==>
                old(if client in links then links[client].armedId == armed else armed !in byArmed && armed !in byFired)
      ensures Keyed() && (!Coherent() ==> ArmedBroken() && link.firedId == None)
    {
      if client !in links || links[client].armedId != armed {
        ghost var was, wasArmed := links, byArmed;
        link := new Link(armed, client);
        links := links[client := link];
        byArmed := byArmed[armed := link];
        CreateDecides(link, was, wasArmed);
      } else {
        link := links[client];
      }
    }

    /** A new link goes with what was indexed exactly if its order has no other and its id is nobody else's. */
    lemma CreateDecides(link: Link, was: map<nat, Link>, wasArmed: map<nat, Link>)
      requires Inverse(was, wasArmed, byFired) && link.firedId == None
      requires links == was[link.client := link] && byArmed == wasArmed[link.armedId := link]
      requires forall c <- was :: was[c] != link
      requires link.client in was ==> was[link.client].armedId != link.armedId
      ensures Keyed()
      ensures Coherent() <==> link.client !in was && link.armedId !in wasArmed && link.armedId !in byFired
      ensures !Coherent() ==> ArmedBroken()
    {
      assert byArmed[link.armedId] == link && link.armedId in byArmed.Keys;
      if link.client in was {
        var stale := was[link.client];
        assert byArmed[stale.armedId] == stale && !LiveIn(links, stale);
      } else if link.armedId in wasArmed {
        var other := wasArmed[link.armedId];
        assert LiveIn(was, other) && byArmed[other.armedId] != other;
        assert links[other.client] == other;
      }
    }

    /**
      `_register_trigger_link`. The indexes stay coherent exactly when the client order has no
      other armed id and neither id is already indexed for anyone else.
    */
    method RegisterLink(armed: nat, client: nat, fired: Option<nat>) returns (link: Link)
      requires Coherent()
      modifies this`links, this`byArmed, this`byFired, links.Values
      ensures if old(client in links && links[client].armedId == armed)
              then links == old(links) && link == links[client]
              else fresh(link) && links == old(links)[client := link]
      ensures link.armedId == armed && link.client == client && (fired.Some? ==> link.firedId == fired)
      ensures Coherent() <==> old(MayRegister(armed, client, fired))
      ensures View() == Registered(old(View()), client, armed, fired)
    {
      ghost var was, wasArmed := links, byArmed;
      link := FindOrCreate(armed, client);
      RegisterDecides(link, armed, client, fired, was, wasArmed);
      RegisteredView(link, armed, client, was, wasArmed);
      if fired.Some? {
        FiredAfterArmed(IdentitiesOf(was), client, armed, fired.value);
        AttachToFound(link, fired.value);
      }
    }

    /** Attaching to the link just found or created repairs nothing that creating it broke. */
    method AttachToFound(link: Link, firedId: nat)
      requires Keyed() && Live(link) && (!Coherent() ==> ArmedBroken() && link.firedId == None)
      modifies this`byFired, link`firedId
      ensures link.firedId == Some(firedId)
      ensures Coherent() <==> old(Coherent() && MayAttach(link, firedId))
      ensures View() == old(View())[link.client := Identity(link.armedId, Some(firedId))]
    {
      ghost var broken := !Coherent();
      AttachFired(link, firedId);
      if broken {
        ArmedBrokenIsIncoherent();
      }
    }

    /** `_trigger_link_for_venue_order_id`: armed or fired, a venue id finds the one order it belongs to. */
    method LinkFor(id: nat) returns (link: Link?)
      requires Coherent()
      ensures link != null ==> Live(link) && (link.armedId == id || link.firedId == Some(id))
      ensures link == null ==> forall c <- links :: links[c].armedId != id && links[c].firedId != Some(id)
      ensures link != null ==>
                forall c <- links :: links[c].armedId == id || links[c].firedId == Some(id) ==> links[c] == link
    {
      if id in byFired {
        link := byFired[id];
        assert id in byFired.Keys;
      } else if id in byArmed {
        link := byArmed[id];
        assert id in byArmed.Keys;
      } else {
        link := null;
      }
    }

    /** The statements that take one link out, and both its ids from the resolution attempts. */
    method Unindex(client: nat) returns (link: Link)
      requires client in links
      modifies this
      ensures link == old(links)[client]
      ensures links == old(links) - {client} && byArmed == old(byArmed) - {link.armedId}
      ensures byFired == if link.firedId.Some? then old(byFired) - {link.firedId.value} else old(byFired)
      ensures attempts ==
                old(attempts) - {link.armedId} - (if link.firedId.Some? then {link.firedId.value} else {})
    {
      link := links[client];
      links := links - {client};
      byArmed := byArmed - {link.armedId};
      attempts := attempts - {link.armedId};
      if link.firedId.Some? {
        byFired := byFired - {link.firedId.value};
        attempts := attempts - {link.firedId.value};
      }
    }

    /** What is left once the link of a client order is taken out is inverse, and names neither of its ids. */
    static lemma DropKeeps(links: map<nat, Link>, byArmed: map<nat, Link>, byFired: map<nat, Link>, client: nat)
      requires Inverse(links, byArmed, byFired) && client in links
      ensures
        var link := links[client];
        var lessArmed := byArmed - {link.armedId};
        var lessFired := if link.firedId.Some? then byFired - {link.firedId.value} else byFired;
        && Inverse(links - {client}, lessArmed, lessFired)
        && IdentitiesOf(links - {client}) == IdentitiesOf(links) - {client}
        && link.armedId !in lessArmed && link.armedId !in lessFired
        && (link.firedId.Some? ==> link.firedId.value !in lessArmed && link.firedId.value !in lessFired)
    {
      assert links[client].armedId in byArmed.Keys;
      if links[client].firedId.Some? {
        assert links[client].firedId.value in byFired.Keys;
      }
    }

    /** Takes one link out of the three indexes: they stay mutually inverse, and no trace of either id is left. */
    method DropLink(client: nat) returns (link: Link)
      requires Coherent() && client in links
      modifies this
      ensures link == old(links)[client] && links == old(links) - {client}
      ensures Coherent() && View() == old(View()) - {client}
      ensures link.armedId !in byArmed && link.armedId !in byFired && link.armedId !in attempts
      ensures link.firedId.Some? ==>
                link.firedId.value !in byArmed && link.firedId.value !in byFired && link.firedId.value !in attempts
      ensures attempts <= old(attempts)
    {
      DropKeeps(links, byArmed, byFired, client);
      link := Unindex(client);
    }

    /** `_forget_order`, as far as the trigger links go: no trace of either id is left. */
    method ForgetOrder(client: nat)
      requires Coherent()
      modifies this
      ensures Coherent() && View() == old(View()) - {client}
      ensures links == old(links) - {client}
      ensures old(client in links) ==>
                var was := old(View())[client];
                && was.armed !in byArmed && was.armed !in byFired && was.armed !in attempts
                && (was.fired.Some? ==>
                      was.fired.value !in byFired && was.fired.value !in byArmed && was.fired.value !in attempts)
      ensures attempts <= old(attempts)
    {
      if client in links {
        var link := DropLink(client);
      } else {
        NothingToDrop(links, client);
        NothingToDrop(View(), client);
      }
    }
  }

  // -- whole runs --------------------------------------------------------

  /** Every live order's ids are the ones the venue issued to it. */
  ghost predicate Issued(live: map<nat, Identity>, armedOf: nat -> nat, ownerOf: nat -> nat) {
    forall c <- live ::
      && live[c].armed == armedOf(c) && ownerOf(live[c].armed) == c
      && (live[c].fired.Some? ==> ownerOf(live[c].fired.value) == c && live[c].fired.value != live[c].armed)
  }

  predicate BreaksAt(commands: seq<Command>, i: nat)
    requires i < |commands|
  {
    Breaks(References(commands[..i]), commands[i])
  }

  ghost predicate AllIssued(commands: seq<Command>, armedOf: nat -> nat, ownerOf: nat -> nat) {
    forall i :: 0 <= i < |commands| ==> VenueIssued(References(commands[..i]), commands[i], armedOf, ownerOf)
  }

  lemma OneMore(commands: seq<Command>, n: nat)
    requires n < |commands|
    ensures References(commands[..n + 1]) == StepReference(References(commands[..n]), commands[n])
  {
    assert commands[..n + 1][..n] == commands[..n];
  }

  /** A held link that is live in the reference belongs to a live order. */
  ghost predicate HeldIsLive(r: Reference) {
    forall i :: 0 <= i < |r.held| && r.held[i].live ==> r.held[i].client in r.live
  }

  /** The armed id survives firing, and every live id is the one issued to its order. */
  lemma {:induction false} IdentitiesStayIssued(commands: seq<Command>, n: nat, armedOf: nat -> nat,
                                                ownerOf: nat -> nat)
    requires n <= |commands| && AllIssued(commands, armedOf, ownerOf)
    ensures Issued(References(commands[..n]).live, armedOf, ownerOf) && HeldIsLive(References(commands[..n]))
    decreases n
  {
    if n > 0 {
      IdentitiesStayIssued(commands, n - 1, armedOf, ownerOf);
      OneMore(commands, n - 1);
      assert VenueIssued(References(commands[..n - 1]), commands[n - 1], armedOf, ownerOf);
    }
  }

  predicate NamedBy(identity: Identity, id: nat) {
    identity.armed == id || identity.fired == Some(id)
  }

  /** No two orders share an id. */
  ghost predicate NoSharedIds(live: map<nat, Identity>) {
    forall a, b, id :: a in live && b in live && NamedBy(live[a], id) && NamedBy(live[b], id) ==> a == b
  }

  lemma IssuedIdsAreNotShared(live: map<nat, Identity>, armedOf: nat -> nat, ownerOf: nat -> nat)
    requires Issued(live, armedOf, ownerOf)
    ensures NoSharedIds(live)
  {
    forall a, id | a in live && NamedBy(live[a], id) ensures ownerOf(id) == a {
    }
  }

  /** An id the venue issued to this client order is free, or already this order's own. */
  lemma MayRegisterIssued(index: TriggerIndex, client: nat, armed: nat, fired: Option<nat>,
                          armedOf: nat -> nat, ownerOf: nat -> nat)
    requires index.Coherent() && Issued(index.View(), armedOf, ownerOf)
    requires VenueIssued(NOTHING, Register(client, armed, fired), armedOf, ownerOf)
    ensures index.MayRegister(armed, client, fired)
  {
    FreeIds(index, armedOf, ownerOf);
    if client in index.links {
      assert index.View()[client].armed == armed;
      if fired.Some? {
        MayAttachIssued(index, client, fired.value, armedOf, ownerOf);
      }
    }
  }

  lemma MayAttachIssued(index: TriggerIndex, client: nat, fired: nat, armedOf: nat -> nat, ownerOf: nat -> nat)
    requires index.Coherent() && Issued(index.View(), armedOf, ownerOf) && client in index.links
    requires VenueIssued(NOTHING, Attach(client, fired), armedOf, ownerOf)
    ensures index.MayAttach(index.links[client], fired)
  {
    FreeIds(index, armedOf, ownerOf);
    if fired in index.byFired {
      assert index.Live(index.byFired[fired]) && index.byFired[fired].client == client;
    }
  }

  /** Every indexed id belongs to the client order it is indexed for. */
  lemma FreeIds(index: TriggerIndex, armedOf: nat -> nat, ownerOf: nat -> nat)
    requires index.Coherent() && Issued(index.View(), armedOf, ownerOf)
    ensures forall a <- index.byArmed :: a == armedOf(index.byArmed[a].client) && ownerOf(a) == index.byArmed[a].client
    ensures forall f <- index.byFired ::
              f != armedOf(index.byFired[f].client) && ownerOf(f) == index.byFired[f].client
  {
    forall a <- index.byArmed
      ensures a == armedOf(index.byArmed[a].client) && ownerOf(a) == index.byArmed[a].client
    {
      var c := index.byArmed[a].client;
      assert index.Live(index.byArmed[a]);
      assert index.View()[c].armed == a;
    }
    forall f <- index.byFired
      ensures f != armedOf(index.byFired[f].client) && ownerOf(f) == index.byFired[f].client
    {
      var c := index.byFired[f].client;
      assert index.Live(index.byFired[f]);
      assert index.View()[c].fired == Some(f);
    }
  }

  /** The held links are the ones the reference knows of: live ones their order's own, the rest out of every index. */
  ghost predicate HoldsAs(index: TriggerIndex, held: seq<Link>, r: Reference)
    reads index`links, held`firedId
  {
    && |held| == |r.held|
    && forall i :: 0 <= i < |held| ==> HoldsOneAs(index, held[i], r.held[i])
  }

  ghost predicate HoldsOneAs(index: TriggerIndex, link: Link, h: Handle)
    reads index`links, link`firedId
  {
    link.client == h.client && (index.Live(link) <==> h.live) && (!h.live ==> link.firedId == h.fired)
  }

  ghost predicate Consistent(index: TriggerIndex, held: seq<Link>, r: Reference)
    reads index`links, index`byArmed, index`byFired, index.links.Values`firedId, index.byFired.Values`firedId
    reads held`firedId
  {
    index.Coherent() && index.View() == r.live && HoldsAs(index, held, r)
  }

  method RunRegister(index: TriggerIndex, held: seq<Link>, client: nat, armed: nat, fired: Option<nat>,
                     ghost r: Reference, ghost armedOf: nat -> nat, ghost ownerOf: nat -> nat)
    requires Consistent(index, held, r) && Issued(r.live, armedOf, ownerOf)
    requires VenueIssued(r, Register(client, armed, fired), armedOf, ownerOf)
    modifies index, index.links.Values
    ensures Consistent(index, held, StepReference(r, Register(client, armed, fired)))
    ensures forall l <- index.links.Values :: l in old(index.links.Values) || fresh(l)
  {
    MayRegisterIssued(index, client, armed, fired, armedOf, ownerOf);
    assert client in index.links ==> index.View()[client].armed == armed;
    var link := index.RegisterLink(armed, client, fired);
    forall i | 0 <= i < |held| ensures HoldsOneAs(index, held[i], r.held[i]) {
      assert old(HoldsOneAs(index, held[i], r.held[i]));
      if !old(index.Live(held[i])) {
        assert held[i] !in old(index.links.Values);
      }
    }
  }

  method RunAttach(index: TriggerIndex, held: seq<Link>, link: Link, fired: nat, ghost r: Reference,
                   ghost armedOf: nat -> nat, ghost ownerOf: nat -> nat)
    requires Consistent(index, held, r) && Issued(r.live, armedOf, ownerOf) && index.Live(link)
    requires VenueIssued(r, Attach(link.client, fired), armedOf, ownerOf)
    modifies index`byFired, link`firedId
    ensures Consistent(index, held, r.(live := Attached(r.live, link.client, fired)))
  {
    MayAttachIssued(index, link.client, fired, armedOf, ownerOf);
    index.AttachFired(link, fired);
    forall i | 0 <= i < |held| ensures HoldsOneAs(index, held[i], r.held[i]) {
      assert old(HoldsOneAs(index, held[i], r.held[i]));
    }
  }

  method RunForget(index: TriggerIndex, held: seq<Link>, client: nat, ghost r: Reference)
    requires Consistent(index, held, r)
    modifies index
    ensures Consistent(index, held, StepReference(r, Forget(client)))
    ensures forall l <- index.links.Values :: l in old(index.links.Values)
  {
    index.ForgetOrder(client);
    ghost var after := StepReference(r, Forget(client));
    forall i | 0 <= i < |held| ensures HoldsOneAs(index, held[i], after.held[i]) {
      assert old(HoldsOneAs(index, held[i], r.held[i]));
    }
  }

  /** Through a held link: an attach like any other if it is live, harmless if it repeats its id, and a break if not. */
  method RunAttachHeld(index: TriggerIndex, held: seq<Link>, k: nat, link: Link, fired: nat, ghost r: Reference,
                       ghost armedOf: nat -> nat, ghost ownerOf: nat -> nat)
    requires Consistent(index, held, r) && Issued(r.live, armedOf, ownerOf) && k < |held| && held[k] == link
    requires VenueIssued(r, AttachHeld(k, fired), armedOf, ownerOf)
    modifies index`byFired, link`firedId
    ensures index.Coherent() <==> !Breaks(r, AttachHeld(k, fired))
    ensures !Breaks(r, AttachHeld(k, fired)) ==> Consistent(index, held, StepReference(r, AttachHeld(k, fired)))
  {
    assert HoldsOneAs(index, link, r.held[k]);
    if link.client in index.links && index.links[link.client] == link {
      RunAttach(index, held, link, fired, r, armedOf, ownerOf);
    } else {
      index.AttachFired(link, fired);
      assert old(link.firedId) == Some(fired) ==> index.View() == old(index.View());
    }
  }

  /** One command on the mutable links: one step of the reference, unless it is the one that breaks the indexes. */
  method RunCommand(index: TriggerIndex, held: seq<Link>, command: Command, ghost r: Reference,
                    ghost armedOf: nat -> nat, ghost ownerOf: nat -> nat, ghost known: set<Link>)
    returns (held': seq<Link>, ghost known': set<Link>)
    requires Consistent(index, held, r) && index.links.Values <= known && forall l <- held :: l in known
    requires Issued(r.live, armedOf, ownerOf) && VenueIssued(r, command, armedOf, ownerOf)
    modifies index, known
    ensures index.Coherent() <==> !Breaks(r, command)
    ensures !Breaks(r, command) ==> Consistent(index, held', StepReference(r, command))
    ensures known <= known' && fresh(known' - known)
    ensures index.links.Values <= known' && forall l <- held' :: l in known'
  {
    held' := held;
    match command {
      case Register(client, armed, fired) =>
        RunRegister(index, held, client, armed, fired, r, armedOf, ownerOf);
      case Attach(client, fired) =>
        if client in index.links {
          RunAttach(index, held, index.links[client], fired, r, armedOf, ownerOf);
        }
      case Forget(client) =>
        RunForget(index, held, client, r);
      case Capture(client) =>
        if client in index.links {
          held' := held + [index.links[client]];
        }
      case AttachHeld(k, fired) =>
        if k < |held| {
          RunAttachHeld(index, held, k, held[k], fired, r, armedOf, ownerOf);
        }
    }
    known' := known + index.links.Values;
  }

  /** The first command that breaks the indexes, or the end. */
  function FirstBreak(commands: seq<Command>, from: nat): (n: nat)
    requires from <= |commands|
    ensures from <= n <= |commands|
    ensures forall i :: from <= i < n ==> !BreaksAt(commands, i)
    ensures n < |commands| ==> BreaksAt(commands, n)
    decreases |commands| - from
  {
    if from == |commands| || BreaksAt(commands, from) then from else FirstBreak(commands, from + 1)
  }

  /** Commands none of which breaks anything. */
  method RunUpTo(commands: seq<Command>, n: nat, ghost armedOf: nat -> nat, ghost ownerOf: nat -> nat)
    returns (index: TriggerIndex, held: seq<Link>, ghost known: set<Link>)
    requires AllIssued(commands, armedOf, ownerOf) && n <= |commands|
    requires forall i :: 0 <= i < n ==> !BreaksAt(commands, i)
    ensures fresh(index) && fresh(known) && index.links.Values <= known && forall l <- held :: l in known
    ensures Consistent(index, held, References(commands[..n]))
  {
    index := new TriggerIndex();
    held, known := [], index.links.Values;
    for i := 0 to n
      invariant fresh(index) && fresh(known)
      invariant index.links.Values <= known && forall l <- held :: l in known
      invariant Consistent(index, held, References(commands[..i]))
    {
      var r := References(commands[..i]);
      IdentitiesStayIssued(commands, i, armedOf, ownerOf);
      OneMore(commands, i);
      assert !BreaksAt(commands, i);
      held, known := RunCommand(index, held, commands[i], r, armedOf, ownerOf, known);
    }
  }

  /**
    Over every run on ids the venue issued: the three aliased indexes stay mutually inverse, agree
    with the reference and share no id up to the first attach through a left-over link with a new
    id, and exactly there they break.
  */
  method RunCommands(commands: seq<Command>, ghost armedOf: nat -> nat, ghost ownerOf: nat -> nat)
    returns (index: TriggerIndex, ran: nat)
    requires AllIssued(commands, armedOf, ownerOf)
    ensures fresh(index) && ran <= |commands|
    ensures index.Coherent() <==> forall i :: 0 <= i < ran ==> !BreaksAt(commands, i)
    ensures forall i :: 0 <= i < ran - 1 ==> !BreaksAt(commands, i)
    ensures index.Coherent() ==>
              ran == |commands| && index.View() == References(commands).live && NoSharedIds(index.View())
  {
    var n := FirstBreak(commands, 0);
    var held;
    ghost var known;
    index, held, known := RunUpTo(commands, n, armedOf, ownerOf);
    ran := n;
    IdentitiesStayIssued(commands, n, armedOf, ownerOf);
    IssuedIdsAreNotShared(index.View(), armedOf, ownerOf);
    if n < |commands| {
      held, known := RunCommand(index, held, commands[n], References(commands[..n]), armedOf, ownerOf, known);
      ran := n + 1;
      assert BreaksAt(commands, n);
    } else {
      assert commands[..n] == commands;
    }
  }

  /** Register an order, hold its link across an await, forget the order, attach through the link. */
  function ForgottenRun(client: nat, armed: nat, firedId: nat): seq<Command> {
    [Register(client, armed, None)] + [Capture(client)] + [Forget(client)] + [AttachHeld(0, firedId)]
  }

  /** The run that breaks them, on ids the venue may well have issued: its last command is the first that does. */
  lemma ForgottenRunBreaks(client: nat, armed: nat, firedId: nat, armedOf: nat -> nat, ownerOf: nat -> nat)
    requires armedOf(client) == armed && ownerOf(armed) == client && ownerOf(firedId) == client && firedId != armed
    ensures var run := ForgottenRun(client, armed, firedId);
            && AllIssued(run, armedOf, ownerOf) && BreaksAt(run, 3)
            && forall i :: 0 <= i < 3 ==> !BreaksAt(run, i)
  {
    var run := ForgottenRun(client, armed, firedId);
    OneMore(run, 0);
    OneMore(run, 1);
    OneMore(run, 2);
    assert run[..0] == [];
    var captured := References(run[..2]);
    assert captured == Reference(map[client := Identity(armed, None)], [Handle(client, true, None)]);
    assert References(run[..3]).held == [Handle(client, false, None)];
    forall i | 0 <= i < |run| ensures VenueIssued(References(run[..i]), run[i], armedOf, ownerOf) {
      assert i == 0 || i == 1 || i == 2 || i == 3;
    }
  }
}
