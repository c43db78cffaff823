/** The two programs that find the configuration database, one datagram at a time. */
module Discovery {
  import opened Options

  type Host = nat

  /** A character of a payload is a byte. */
  datatype Datagram = Datagram(from: Host, to: Host, payload: string)

  const DISCO := "cfgdb_discovery"
  const REPLY := "cfgdb_reply:"
  const BUFLEN := 100
  const ITERATIONS := 6

  /** sizeof(BUFLEN), the size of a number and not of the buffer. */
  const CLEARED := 4

  const NUL := 0 as char

  /** The client's buffer after clearing it and receiving: what is not overwritten stays. */
  function Received(buffer: string, payload: string): (result: string)
    requires |buffer| == BUFLEN
    ensures |result| == BUFLEN
  {
    var data := if |payload| <= BUFLEN then payload else payload[..BUFLEN];
    data + (seq(CLEARED, _ => NUL) + buffer[CLEARED..])[|data|..]
  }

  /** strncmp of the buffer with the reply's prefix. */
  predicate Accepted(buffer: string) {
    REPLY <= buffer
  }

  lemma LongAccepted(buffer: string, payload: string)
    requires |buffer| == BUFLEN && |payload| >= |REPLY|
    ensures Accepted(Received(buffer, payload)) <==> REPLY <= payload
  {
    assert Received(buffer, payload)[..|REPLY|] == payload[..|REPLY|];
  }

  lemma ReceivedShort(buffer: string, payload: string)
    requires |buffer| == BUFLEN && CLEARED <= |payload| < |REPLY|
    ensures Received(buffer, payload)[..|REPLY|] == payload + buffer[|payload|..|REPLY|]
  {
  }

  lemma PrefixOfJoined(text: string, head: string, tail: string)
    requires |head| + |tail| == |text|
    ensures head + tail == text <==> head <= text && tail == text[|head|..]
  {
    assert head <= text ==> text == head + text[|head|..];
    assert head + tail == text ==> text[..|head|] == head && text[|head|..] == tail;
  }

  lemma ShortAccepted(buffer: string, payload: string)
    requires |buffer| == BUFLEN && CLEARED <= |payload| < |REPLY|
    ensures Accepted(Received(buffer, payload)) <==>
      payload <= REPLY && buffer[|payload|..|REPLY|] == REPLY[|payload|..]
  {
    hide Received;
    var result, tail := Received(buffer, payload), buffer[|payload|..|REPLY|];
    ReceivedShort(buffer, payload);
    PrefixOfJoined(REPLY, payload, tail);
    assert REPLY <= result <==> REPLY == result[..|REPLY|];
  }

  lemma TinyAccepted(buffer: string, payload: string)
    requires |buffer| == BUFLEN && |payload| < CLEARED
    ensures !Accepted(Received(buffer, payload))
  {
    assert Received(buffer, payload)[3] == NUL && REPLY[3] != NUL;
  }

  /** Whether a receiving client takes a datagram for a reply, exactly: a short one also when what an
      earlier datagram has left in the buffer completes it. */
  lemma AcceptedExactly(buffer: string, payload: string)
    requires |buffer| == BUFLEN
    ensures Accepted(Received(buffer, payload)) <==>
      if |payload| >= 12 then REPLY <= payload
      else |payload| >= 4 && payload <= REPLY && buffer[|payload|..|REPLY|] == REPLY[|payload|..]
  {
    hide Accepted, Received;
    if |payload| >= |REPLY| {
      LongAccepted(buffer, payload);
    } else if |payload| >= CLEARED {
      ShortAccepted(buffer, payload);
    } else {
      TinyAccepted(buffer, payload);
    }
  }

  /** For example: a datagram that only ends like a reply, and one that only begins like it. */
  lemma ShortIsMistaken()
    ensures exists buffer, first, second ::
      && |buffer| == BUFLEN && !(REPLY <= first) && !(REPLY <= second)
      && !Accepted(Received(buffer, first)) && Accepted(Received(Received(buffer, first), second))
  {
    var buffer, first, second := seq(BUFLEN, _ => NUL), "?fgdb_reply:", "cfgdb";
    AcceptedExactly(buffer, first);
    AcceptedExactly(Received(buffer, first), second);
    assert Received(buffer, first)[..12] == first;
    assert Received(buffer, first)[5..12] == first[5..12] == REPLY[5..];
    assert first[0] != REPLY[0];
    assert |second| < |REPLY|;
    assert !(REPLY <= first) && !(REPLY <= second);
  }

  /** What one attempt to receive gives: a datagram, or nothing within the timeout. */
  type Reception = Option<Datagram>

  /** The address that the client prints. */
  function Found(buffer: string, incoming: seq<Reception>, left: nat): Option<Host>
    requires |buffer| == BUFLEN
    decreases left
  {
    if left == 0 || incoming == [] || incoming[0].None? then None
    else
      var next := Received(buffer, incoming[0].value.payload);
      if Accepted(next) then Some(incoming[0].value.from) else Found(next, incoming[1..], left - 1)
  }

  /** The reception at k is the first reply, and no timeout comes before it. */
  predicate FirstReply(incoming: seq<Reception>, k: nat) {
    && k < |incoming| && incoming[k].Some? && REPLY <= incoming[k].value.payload
    && forall j | 0 <= j < k :: incoming[j].Some? && !(REPLY <= incoming[j].value.payload)
  }

  predicate LongEnough(incoming: seq<Reception>) {
    forall j | 0 <= j < |incoming| && incoming[j].Some? :: |incoming[j].value.payload| >= |REPLY|
  }

  /** Among datagrams that are not too short the client finds exactly the sender of the first reply
      within its bound, whatever its buffer held. */
  lemma {:induction false} FoundIsFirstReply(buffer: string, incoming: seq<Reception>, left: nat)
    requires |buffer| == BUFLEN && LongEnough(incoming)
    ensures Found(buffer, incoming, left).Some? <==> exists k: nat :: k < left && FirstReply(incoming, k)
    ensures forall k: nat | k < left && FirstReply(incoming, k) ::
      Found(buffer, incoming, left) == Some(incoming[k].value.from)
    decreases left
  {
    if left > 0 && incoming != [] && incoming[0].Some? {
      var payload := incoming[0].value.payload;
      AcceptedExactly(buffer, payload);
      if REPLY <= payload {
        assert FirstReply(incoming, 0);
      } else {
        var rest := incoming[1..];
        FoundIsFirstReply(Received(buffer, payload), rest, left - 1);
        assert forall k: nat :: FirstReply(rest, k) ==> FirstReply(incoming, k + 1);
        forall k: nat | k < left && FirstReply(incoming, k)
          ensures k > 0 && FirstReply(rest, k - 1)
        {
          assert forall j | 0 <= j < k - 1 :: rest[j] == incoming[j + 1];
        }
      }
    }
  }

  /** It looks at six datagrams. */
  lemma ListensToSix(buffer: string, incoming: seq<Reception>)
    requires |buffer| == BUFLEN && LongEnough(incoming)
    ensures Found(buffer, incoming, ITERATIONS).Some? <==> exists k: nat :: k < 6 && FirstReply(incoming, k)
  {
    FoundIsFirstReply(buffer, incoming, ITERATIONS);
  }

  class Client {
    const buffer: array<char>

    constructor ()
      ensures buffer.Length == BUFLEN && fresh(buffer)
    {
      buffer := new char[BUFLEN];
    }

    /** The receive loop: it gives up after six datagrams that are no replies, or a timeout. */
    method Listen(incoming: seq<Reception>) returns (found: Option<Host>, read: nat)
      requires buffer.Length == BUFLEN
      modifies buffer
      ensures found == Found(old(buffer[..]), incoming, ITERATIONS)
      ensures read <= ITERATIONS && read <= |incoming|
      ensures found.Some? ==> read > 0 && incoming[read - 1].Some? && found.value == incoming[read - 1].value.from
    {
      var iterations := ITERATIONS;
      read := 0;
      while iterations > 0
        invariant 0 <= iterations <= ITERATIONS && read == ITERATIONS - iterations && read <= |incoming|
        invariant Found(old(buffer[..]), incoming, ITERATIONS) == Found(buffer[..], incoming[read..], iterations)
      {
        if read == |incoming| || incoming[read].None? {
          return None, read;
        }
        ghost var before := buffer[..];
        Store(incoming[read].value.payload);
        assert incoming[read..][1..] == incoming[read + 1..];
        read := read + 1;
        if Accepted(buffer[..]) {
          return Some(incoming[read - 1].value.from), read;
        }
        iterations := iterations - 1;
      }
      found := None;
    }

    /** memset and recvfrom. */
    method Store(payload: string)
      requires buffer.Length == BUFLEN
      modifies buffer
      ensures buffer[..] == Received(old(buffer[..]), payload)
    {
      for i := 0 to CLEARED
        invariant forall j | 0 <= j < BUFLEN :: buffer[j] == if j < i then NUL else old(buffer[j])
      {
        buffer[i] := NUL;
      }
      ghost var cleared := buffer[..];
      var count := if |payload| <= BUFLEN then |payload| else BUFLEN;
      for i := 0 to count
        invariant forall j | 0 <= j < BUFLEN :: buffer[j] == if j < i then payload[j] else cleared[j]
      {
        buffer[i] := payload[i];
      }
    }
  }

  /** The server's side: what it sends back, and the reply it keeps from its first use on. */
  function Answer(kept: Option<string>, payload: string, name: string): (Option<string>, Option<string>) {
    if !(DISCO <= payload) then (None, kept)
    else
      var reply := if kept.None? then REPLY + name else kept.value;
      (Some(reply), Some(reply))
  }

  class Server {
    const host: Host
    var kept: Option<string>

    constructor (host: Host)
      ensures this.host == host && kept == None
    {
      this.host, kept := host, None;
    }

    /** One turn of the endless loop. `name` is what the datacenter's name would be found to be. */
    method Serve(datagram: Datagram, name: string) returns (sent: Option<Datagram>)
      modifies this
      ensures var (answer, next) := Answer(old(kept), datagram.payload, name);
        kept == next && sent == if answer.None? then None else Some(Datagram(host, datagram.from, answer.value))
    {
      sent := None;
      if DISCO <= datagram.payload {
        if kept.None? {
          kept := Some(REPLY + name);
        }
        sent := Some(Datagram(host, datagram.from, kept.value));
      }
    }
  }
}
