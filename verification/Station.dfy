/** The bridge's own steps as events beside a command station: what a stretch of run does to the layout
    around it, so that the attribution theorem carries over to the objects of the main loop. */
module Station {
  import Codec
  import opened LocoNet
  import opened LineFraming
  import opened Bridge
  import opened Attribution

  function Texts(lines: seq<Line>): seq<string>
  {
    seq(|lines|, i requires 0 <= i < |lines| => lines[i].text)
  }

  function Receives(frames: seq<Frame>): seq<Step>
  {
    seq(|frames|, i requires 0 <= i < |frames| => Receive(frames[i]))
  }

  function Internals(steps: seq<Step>): seq<Event>
  {
    seq(|steps|, i requires 0 <= i < |steps| => Internal(steps[i]))
  }

  function Deliveries(n: nat): seq<Event> { seq(n, _ => Deliver) }

  ghost predicate Leads(l: Layout, events: seq<Event>, l': Layout)
  {
    IsHistory(l, events) && Outcome(l, events) == l'
  }

  lemma {:induction false} LeadsOn(l: Layout, a: seq<Event>, l1: Layout, b: seq<Event>, l2: Layout)
    requires Leads(l, a, l1) && Leads(l1, b, l2)
    ensures Leads(l, a + b, l2)
    decreases |a|
  {
    if a == [] {
      assert a + b == b;
    } else {
      assert (a + b)[0] == a[0] && (a + b)[1..] == a[1..] + b;
      LeadsOn(After(l, a[0]), a[1..], l1, b, l2);
    }
  }

  lemma LeadsThrough(l: Layout, a: seq<Event>, l1: Layout, b: seq<Event>, l2: Layout, c: seq<Event>, l3: Layout)
    requires Leads(l, a, l1) && Leads(l1, b, l2) && Leads(l2, c, l3)
    ensures Leads(l, a + b + c, l3)
  {
    LeadsOn(l, a, l1, b, l2);
    LeadsOn(l, a + b, l2, c, l3);
  }

  /** Steps of the bridge other than receiving: the lines in flight and what they told stay. */
  lemma {:induction false} InternalsLead(l: Layout, steps: seq<Step>) returns (l': Layout)
    requires IsRun(l.bridge, steps) && forall i | 0 <= i < |steps| :: !steps[i].Receive?
    ensures Leads(l, Internals(steps), l')
    ensures l'.bridge == RunFrom(l.bridge, steps) && l'.inFlight == l.inFlight && l'.told == l.told
    decreases |steps|
  {
    if steps == [] {
      l' := l;
    } else {
      assert Internals(steps)[0] == Internal(steps[0]) && Internals(steps)[1..] == Internals(steps[1..]);
      l' := InternalsLead(After(l, Internal(steps[0])), steps[1..]);
    }
  }

  /** Reading the n oldest lines in flight is receiving the frames they decode to. */
  lemma {:induction false} DeliveriesLead(l: Layout, n: nat) returns (l': Layout)
    requires n <= |l.inFlight|
    ensures Leads(l, Deliveries(n), l') && l'.inFlight == l.inFlight[n..]
    ensures l'.bridge == RunFrom(l.bridge, Receives(Decodables(Texts(l.inFlight[..n]))))
    decreases n
  {
    if n == 0 {
      l' := l;
    } else {
      var next := After(l, Deliver);
      l' := DeliveriesLead(next, n - 1);
      assert Deliveries(n)[0] == Deliver && Deliveries(n)[1..] == Deliveries(n - 1);
      assert next.inFlight[..n - 1] == l.inFlight[..n][1..];
      FirstLineReceived(l, n);
    }
  }

  lemma FirstLineDecoded(lines: seq<Line>)
    requires lines != []
    ensures var m := Codec.DecodeLine(lines[0].text);
            Decodables(Texts(lines)) == (if m.Some? then [m.value] else []) + Decodables(Texts(lines[1..]))
  {
    assert Texts(lines)[0] == lines[0].text && Texts(lines)[1..] == Texts(lines[1..]);
  }

  lemma ReceiveFirst(w: World, m: Frame, later: seq<Frame>)
    ensures RunFrom(w, Receives([m] + later)) == RunFrom(Next(w, Receive(m)), Receives(later))
  {
    assert Receives([m] + later) == [Receive(m)] + Receives(later);
  }

  lemma FirstLineReceived(l: Layout, n: nat)
    requires 0 < n <= |l.inFlight|
    ensures RunFrom(l.bridge, Receives(Decodables(Texts(l.inFlight[..n]))))
            == RunFrom(After(l, Deliver).bridge, Receives(Decodables(Texts(l.inFlight[..n][1..]))))
  {
    var lines := l.inFlight[..n];
    FirstLineDecoded(lines);
    var m, later := Codec.DecodeLine(lines[0].text), Decodables(Texts(lines[1..]));
    if m.Some? {
      ReceiveFirst(l.bridge, m.value, later);
    } else {
      assert [] + later == later;
    }
  }
}
