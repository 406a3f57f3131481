/**
 * The bounded message buffer between a publisher and the drain that collects
 * its messages. Payloads are kept in publish order; a payload is a reader that
 * either yields its whole content or fails.
 */
module Pubsub {
  import opened Wrappers

  /** A buffered payload: one that reads to the end, or one whose read fails. */
  datatype Payload = Readable(content: string) | Unreadable(failure: Error)

  datatype PublisherOptions = PublisherOptions(bufferCapacity: int)

  /** `messages` in front of a drain's messages; an error stays an error. */
  function Prefixed(messages: seq<string>, r: Result<seq<string>>): Result<seq<string>> {
    match r
    case Ok(rest) => Ok(messages + rest)
    case Err(e) => Err(e)
  }

  lemma PrefixedAppend(a: seq<string>, b: seq<string>, r: Result<seq<string>>)
    ensures Prefixed([], r) == r
    ensures Prefixed(a, Prefixed(b, r)) == Prefixed(a + b, r)
  {
    if r.Ok? {
      assert [] + r.value == r.value;
      assert a + (b + r.value) == (a + b) + r.value;
    }
  }

  /**
   * What draining these payloads yields: every content, in order, or the error
   * of the first payload that cannot be read (with nothing collected).
   */
  function Drain(payloads: seq<Payload>): Result<seq<string>> {
    if payloads == [] then Ok([])
    else
      match payloads[0]
      case Unreadable(e) => Err(e)
      case Readable(s) => Prefixed([s], Drain(payloads[1..]))
  }

  /** How many payloads a drain takes off the buffer: all, or those up to and including the first unreadable one. */
  function Consumed(payloads: seq<Payload>): (n: nat)
    ensures n <= |payloads|
  {
    if payloads == [] then 0
    else if payloads[0].Unreadable? then 1
    else 1 + Consumed(payloads[1..])
  }

  predicate AllReadable(payloads: seq<Payload>) {
    forall i :: 0 <= i < |payloads| ==> payloads[i].Readable?
  }

  /**
   * A drain succeeds iff every payload is readable; it then yields one message
   * per payload, each the payload's content, and empties the buffer.
   */
  lemma {:induction false} DrainReadable(payloads: seq<Payload>)
    ensures Drain(payloads).Ok? <==> AllReadable(payloads)
    ensures Drain(payloads).Ok? ==> |Drain(payloads).value| == |payloads|
    ensures Drain(payloads).Ok? ==>
              forall i :: 0 <= i < |payloads| ==> Drain(payloads).value[i] == payloads[i].content
    ensures Drain(payloads).Ok? ==> Consumed(payloads) == |payloads|
  {
    if payloads != [] {
      var rest := payloads[1..];
      DrainReadable(rest);
      if payloads[0].Readable? {
        if AllReadable(rest) {
          forall i | 0 <= i < |payloads| ensures payloads[i].Readable? {
            if i > 0 { assert payloads[i] == rest[i - 1]; }
          }
        }
        if AllReadable(payloads) {
          forall i | 0 <= i < |rest| ensures rest[i].Readable? {
            assert rest[i] == payloads[i + 1];
          }
        }
      }
    }
  }

  /**
   * A drain that meets an unreadable payload after `k` readable ones fails with
   * that payload's error, having taken `k + 1` payloads off the buffer.
   */
  lemma {:induction false} DrainFails(payloads: seq<Payload>, k: nat)
    requires k < |payloads| && payloads[k].Unreadable?
    requires forall j :: 0 <= j < k ==> payloads[j].Readable?
    ensures Drain(payloads) == Err(payloads[k].failure)
    ensures Consumed(payloads) == k + 1
  {
    if k > 0 {
      var rest := payloads[1..];
      assert forall j :: 0 <= j < k - 1 ==> rest[j] == payloads[j + 1];
      DrainFails(rest, k - 1);
    }
  }

  /** Publishing strings and draining them gives back the same strings in the same order. */
  lemma {:induction false} PublishThenDrain(messages: seq<string>)
    ensures Drain(seq(|messages|, i requires 0 <= i < |messages| => Readable(messages[i]))) == Ok(messages)
  {
    var payloads := seq(|messages|, i requires 0 <= i < |messages| => Readable(messages[i]));
    DrainReadable(payloads);
    assert Drain(payloads).value == messages;
  }

  class Publisher {
    /** The buffer's capacity, fixed when the publisher is made. */
    const capacity: nat
    /** The payloads published and not yet drained, oldest first. */
    var buffer: seq<Payload>
    var closed: bool

    ghost predicate Valid()
      reads this
    {
      |buffer| <= capacity
    }

    constructor (options: PublisherOptions)
      requires options.bufferCapacity >= 0
      ensures Valid()
      ensures capacity == options.bufferCapacity && buffer == [] && !closed
      ensures Capacity() == options.bufferCapacity && Len() == 0
    {
      capacity := options.bufferCapacity;
      buffer := [];
      closed := false;
    }

    /**
     * Publishes what the producer made. `produced` is the producer's outcome:
     * its error is returned as is with the buffer untouched; a payload is
     * appended. Appending to a full buffer would block and appending after
     * close would panic, so a caller with a payload must avoid both.
     */
    method Publish(produced: Result<Payload>) returns (err: Option<Error>)
      requires Valid()
      requires produced.Ok? ==> !closed && |buffer| < capacity
      modifies this
      ensures Valid() && closed == old(closed)
      ensures produced.Err? ==> err == Some(produced.error) && buffer == old(buffer)
      ensures produced.Ok? ==> err == None && buffer == old(buffer) + [produced.value]
    {
      if produced.Err? {
        return Some(produced.error);
      }
      buffer := buffer + [produced.value];
      return None;
    }

    /** Closing twice would panic. */
    method Close()
      requires Valid() && !closed
      modifies this
      ensures Valid() && closed && buffer == old(buffer)
    {
      closed := true;
    }

    /**
     * Drains a closed buffer: the result is `Drain` of what was buffered, and
     * the payloads the drain took (`Consumed`) are gone from the buffer.
     */
    method RetrieveMessages() returns (r: Result<seq<string>>)
      requires Valid() && closed
      modifies this
      ensures Valid() && closed
      ensures r == Drain(old(buffer))
      ensures buffer == old(buffer)[Consumed(old(buffer))..]
      ensures r.Ok? ==> buffer == []
    {
      DrainReadable(buffer);
      var messages: seq<string> := [];
      ghost var taken := 0;
      PrefixedAppend([], [], Drain(buffer));
      while buffer != []
        invariant Valid() && closed
        invariant taken <= |old(buffer)| && buffer == old(buffer)[taken..]
        invariant Drain(old(buffer)) == Prefixed(messages, Drain(buffer))
        invariant Consumed(old(buffer)) == taken + Consumed(buffer)
        decreases |buffer|
      {
        var message := buffer[0];
        buffer := buffer[1..];
        taken := taken + 1;
        match message
        case Unreadable(e) =>
          return Err(e);
        case Readable(s) =>
          PrefixedAppend(messages, [s], Drain(buffer));
          messages := messages + [s];
      }
      assert messages + [] == messages;
      return Ok(messages);
    }

    /** The capacity the publisher was made with; it never changes. */
    function Capacity(): nat {
      capacity
    }

    function Len(): (n: nat)
      reads this
      requires Valid()
      ensures n <= Capacity()
    {
      |buffer|
    }
  }

  /**
   * A publisher of capacity 2: a failed production leaves it empty, two
   * published payloads fill it, and after close the drain returns them in
   * publish order and leaves it empty.
   */
  method PublishCloseDrainScenario() {
    var p := new Publisher(PublisherOptions(2));
    var err := p.Publish(Err("encode failed"));
    assert err == Some("encode failed") && p.Len() == 0;
    err := p.Publish(Ok(Readable("x")));
    err := p.Publish(Ok(Readable("y")));
    assert err == None && p.Len() == p.Capacity();
    p.Close();
    assert p.buffer == [Readable("x"), Readable("y")];
    DrainReadable(p.buffer);
    var r := p.RetrieveMessages();
    assert r.value == ["x", "y"];
    assert p.Len() == 0;
  }
}
