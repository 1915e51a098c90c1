/** What one write to a target does: a stream write when the copy holds a stream handle,
    otherwise an outgoing HTTP request for an http copy, otherwise nothing. The record's
    rendering (timestamp and formatting) is not modelled: a write carries the call's arguments. */
module Sink {
  import opened ConfigModel
  import opened Lookup

  datatype Channel = Stream | Request

  /** One issued write: the target copy, how it is delivered, and the logged arguments. */
  datatype Write = Write(to: Copy, channel: Channel, args: seq<string>)

  /** A copy that `write` does something for. */
  predicate Deliverable(c: Copy) {
    c.entry.stream || c.kind == Http
  }

  /** `write(target, ...args)` in tlog, and the body of the loops of `log` in log4jesus. */
  function WriteOf(c: Copy, args: seq<string>): (r: seq<Write>)
    ensures |r| == if Deliverable(c) then 1 else 0
    ensures forall w <- r :: w.to == c && w.args == args && (w.channel == Stream <==> c.entry.stream)
  {
    if c.entry.stream then [Write(c, Stream, args)]
    else if c.kind == Http then [Write(c, Request, args)]
    else []
  }

  /** The writes of a loop that calls `write` on each copy in turn. */
  function Writes(cs: seq<Copy>, args: seq<string>): seq<Write> {
    if cs == [] then []
    else Writes(cs[..|cs| - 1], args) + WriteOf(cs[|cs| - 1], args)
  }

  /** The HTTP requests among some writes, in order. */
  function Requests(ws: seq<Write>): seq<Write> {
    if ws == [] then []
    else Requests(ws[..|ws| - 1]) + (if ws[|ws| - 1].channel == Request then [ws[|ws| - 1]] else [])
  }

  /** The HTTP requests a write loop over some copies issues, in order. */
  function Pending(cs: seq<Copy>, args: seq<string>): seq<Write> {
    if cs == [] then []
    else Pending(cs[..|cs| - 1], args) + Requests(WriteOf(cs[|cs| - 1], args))
  }

  /** The requests of a write loop are the request-channel writes among its writes. */
  lemma {:induction false} PendingAreRequests(cs: seq<Copy>, args: seq<string>)
    ensures Pending(cs, args) == Requests(Writes(cs, args))
  {
    if cs != [] {
      var init, c := cs[..|cs| - 1], cs[|cs| - 1];
      PendingAreRequests(init, args);
      RequestsAppend(Writes(init, args), WriteOf(c, args));
    }
  }

  /** At most one write per copy, each to one of the copies, each with the call's arguments. */
  lemma {:induction false} WritesSound(cs: seq<Copy>, args: seq<string>)
    ensures |Writes(cs, args)| <= |cs|
    ensures forall w <- Writes(cs, args) :: w.to in cs && w.args == args
  {
    if cs != [] {
      var init := cs[..|cs| - 1];
      assert cs == init + [cs[|cs| - 1]];
      WritesSound(init, args);
    }
  }

  /** One more step of a write loop, behind any earlier writes. */
  lemma WritesSnoc(pre: seq<Write>, cs: seq<Copy>, c: Copy, args: seq<string>)
    ensures pre + Writes(cs, args) + WriteOf(c, args) == pre + Writes(cs + [c], args)
  {
    assert (cs + [c])[..|cs|] == cs;
  }

  /** The pending requests after one more step of a write loop. */
  lemma PendingSnoc(pre: seq<Write>, cs: seq<Copy>, c: Copy, args: seq<string>)
    ensures pre + Pending(cs, args) + Requests(WriteOf(c, args)) == pre + Pending(cs + [c], args)
  {
    assert (cs + [c])[..|cs|] == cs;
  }

  /** An http copy without a stream handle in a write loop gets a request of its own. */
  lemma {:induction false} PendingHas(cs: seq<Copy>, c: Copy, args: seq<string>)
    requires c in cs && c.kind == Http && !c.entry.stream
    ensures Write(c, Request, args) in Pending(cs, args)
  {
    var init, last := cs[..|cs| - 1], cs[|cs| - 1];
    assert cs == init + [last];
    if c == last {
      var w := Write(c, Request, args);
      assert WriteOf(c, args) == [w];
      assert [w][..0] == [];
      assert Requests([w]) == [w];
    } else {
      PendingHas(init, c, args);
    }
  }

  lemma {:induction false} PendingAppend(a: seq<Copy>, b: seq<Copy>, args: seq<string>)
    ensures Pending(a + b, args) == Pending(a, args) + Pending(b, args)
  {
    if b == [] {
      assert a + b == a;
    } else {
      var init, last := b[..|b| - 1], b[|b| - 1];
      assert (a + b)[..|a + b| - 1] == a + init;
      assert (a + b)[|a + b| - 1] == last;
      PendingAppend(a, init, args);
      var tail := Requests(WriteOf(last, args));
      assert Pending(a + b, args) == Pending(a, args) + Pending(init, args) + tail;
      assert Pending(b, args) == Pending(init, args) + tail;
    }
  }

  /** The writes of two consecutive loops are the writes of one loop over both lists. */
  lemma WritesSplit(pre: seq<Write>, cs: seq<Copy>, a: seq<Copy>, b: seq<Copy>, args: seq<string>)
    requires cs == a + b
    ensures pre + Writes(a, args) + Writes(b, args) == pre + Writes(cs, args)
  {
    WritesAppend(a, b, args);
  }

  /** The requests of two consecutive loops are the requests of one loop over both lists. */
  lemma PendingSplit(pre: seq<Write>, cs: seq<Copy>, a: seq<Copy>, b: seq<Copy>, args: seq<string>)
    requires cs == a + b
    ensures pre + Pending(a, args) + Pending(b, args) == pre + Pending(cs, args)
  {
    PendingAppend(a, b, args);
  }

  lemma {:induction false} WritesAppend(a: seq<Copy>, b: seq<Copy>, args: seq<string>)
    ensures Writes(a + b, args) == Writes(a, args) + Writes(b, args)
  {
    if b != [] {
      var init := b[..|b| - 1];
      assert (a + b)[..|a + b| - 1] == a + init;
      WritesAppend(a, init, args);
    } else {
      assert a + b == a;
    }
  }

  lemma {:induction false} RequestsAppend(a: seq<Write>, b: seq<Write>)
    ensures Requests(a + b) == Requests(a) + Requests(b)
  {
    if b != [] {
      var init := b[..|b| - 1];
      assert (a + b)[..|a + b| - 1] == a + init;
      RequestsAppend(a, init);
    } else {
      assert a + b == a;
    }
  }

  /** When every copy is deliverable, the loop issues exactly one write per copy, in order. */
  lemma {:induction false} WritesOnePerCopy(cs: seq<Copy>, args: seq<string>)
    requires forall c <- cs :: Deliverable(c)
    ensures |Writes(cs, args)| == |cs|
    ensures forall i :: 0 <= i < |cs| ==> Writes(cs, args)[i].to == cs[i]
  {
    if cs != [] {
      var init := cs[..|cs| - 1];
      WritesOnePerCopy(init, args);
      assert forall i :: 0 <= i < |init| ==> Writes(cs, args)[i] == Writes(init, args)[i];
    }
  }
}
