/** The notices by which one tab invalidates its peers, with a bounded memory of those already seen. */
module SessionSync {
  import opened Wrappers
  import Text

  datatype EventType = Logout | IdentityChange

  type NoticeId = string

  datatype Error = BadContext

  /** A message as it arrives: a well-formed notice of some context, or anything else. */
  datatype Message = Notice(context: string, event: EventType, id: NoticeId) | Malformed

  const MAX_SEEN := 128
  const MAX_CONTEXT := 128

  // ---- What remembering does ---------------------------------------------------------------

  /** Identifiers in order of arrival, as a Set keeps them; past the bound the oldest goes. */
  function Remember(seen: seq<NoticeId>, id: NoticeId): seq<NoticeId> {
    var grown := if id in seen then seen else seen + [id];
    if |grown| > MAX_SEEN then grown[1..] else grown
  }

  predicate Distinct(seen: seq<NoticeId>) {
    forall i, j :: 0 <= i < j < |seen| ==> seen[i] != seen[j]
  }

  predicate Bounded(seen: seq<NoticeId>) {
    |seen| <= MAX_SEEN && Distinct(seen)
  }

  /** Whether a message is a peer's notice of this context that has not been seen. */
  predicate Invalidates(context: string, seen: seq<NoticeId>, m: Message) {
    m.Notice? && m.context == context && m.id !in seen
  }

  // ---- The transport -----------------------------------------------------------------------

  class Transport {
    const context: string
    var open: bool
    var seen: seq<NoticeId>

    constructor (context: string, available: bool)
      ensures this.context == context && open == available && seen == [] && Valid()
    {
      this.context := context;
      open := available;
      seen := [];
    }

    ghost predicate Valid()
      reads this
    {
      Bounded(seen)
    }

    method RememberId(id: NoticeId)
      requires Valid()
      modifies this`seen
      ensures Valid() && seen == Remember(old(seen), id) && id in seen
    {
      RememberKeeps(seen, id);
      if id !in seen {
        seen := seen + [id];
      }
      if |seen| > MAX_SEEN {
        seen := seen[1..];
      }
    }

    /** The message handler; the result says whether the client is to invalidate its identity. */
    method OnMessage(m: Message) returns (invalidate: bool)
      requires Valid()
      modifies this`seen
      ensures Valid()
      ensures invalidate <==> old(open) && m.Notice? && m.context == context && m.id !in old(seen)
      ensures seen == if invalidate then Remember(old(seen), m.id) else old(seen)
    {
      invalidate := open && m.Notice? && m.context == context && m.id !in seen;
      if invalidate {
        RememberId(m.id);
      }
    }

    /**
     * Publishing remembers the notice's own identifier, so that it is not taken for a peer's. There may be no
     * identifier to be had, or the channel may fail to post; neither is reported.
     */
    method Publish(event: EventType, id: Option<NoticeId>, posts: bool) returns (sent: Option<Message>)
      requires Valid()
      modifies this`seen
      ensures Valid()
      ensures sent == if old(open) && id.Some? && posts then Some(Notice(context, event, id.value)) else None
      ensures seen == if old(open) && id.Some? then Remember(old(seen), id.value) else old(seen)
    {
      if !open || id.None? {
        return None;
      }
      RememberId(id.value);
      return if posts then Some(Notice(context, event, id.value)) else None;
    }

    method Close()
      requires Valid()
      modifies this
      ensures Valid() && !open && seen == []
    {
      open := false;
      seen := [];
    }
  }

  /** A transport, open where the host has channels; a blank or overlong context is refused. */
  method CreateTransport(context: string, available: bool) returns (r: Result<Transport, Error>)
    ensures r.Ok? <==> |context| <= 128 && exists i :: 0 <= i < |context| && !Text.IsWhitespace(context[i])
    ensures r.Ok? ==> fresh(r.value) && r.value.Valid() && r.value.context == context
                      && r.value.open == available && r.value.seen == []
  {
    if Text.Blank(context) || |context| > MAX_CONTEXT {
      return Err(BadContext);
    }
    var transport := new Transport(context, available);
    return Ok(transport);
  }

  // ---- What the memory is worth --------------------------------------------------------------

  lemma RememberKeeps(seen: seq<NoticeId>, id: NoticeId)
    requires Bounded(seen)
    ensures Bounded(Remember(seen, id)) && id in Remember(seen, id)
  {
    if id !in seen {
      var grown := seen + [id];
      assert grown[|grown| - 1] == id;
      if |grown| > MAX_SEEN {
        assert grown[1..][|grown| - 2] == id;
      }
    }
  }

  function RememberAll(seen: seq<NoticeId>, ids: seq<NoticeId>): seq<NoticeId>
    decreases |ids|
  {
    if |ids| == 0 then seen else RememberAll(Remember(seen, ids[0]), ids[1..])
  }

  /** An identifier survives as many more as there is free room and older identifiers before it. */
  lemma {:induction false} SurvivesAt(seen: seq<NoticeId>, ids: seq<NoticeId>, p: nat)
    requires Bounded(seen) && p < |seen|
    requires |seen| + |ids| <= MAX_SEEN + p
    ensures seen[p] in RememberAll(seen, ids)
    decreases |ids|
  {
    if |ids| > 0 {
      var next := Remember(seen, ids[0]);
      RememberKeeps(seen, ids[0]);
      if ids[0] in seen || |seen| < MAX_SEEN {
        assert next[p] == seen[p];
        SurvivesAt(next, ids[1..], p);
      } else {
        assert next[p - 1] == seen[p];
        SurvivesAt(next, ids[1..], p - 1);
      }
    }
  }

  /** A notice that was acted on is not taken again before 128 further identifiers have been remembered. */
  lemma RepeatsAreIgnored(context: string, seen: seq<NoticeId>, m: Message, ids: seq<NoticeId>)
    requires Bounded(seen) && Invalidates(context, seen, m) && |ids| < MAX_SEEN
    ensures !Invalidates(context, RememberAll(Remember(seen, m.id), ids), m)
  {
    var next := Remember(seen, m.id);
    RememberKeeps(seen, m.id);
    assert next[|next| - 1] == m.id;
    SurvivesAt(next, ids, |next| - 1);
  }

  /** The newest of some identifiers, as many as are kept. */
  function Newest(ids: seq<NoticeId>): seq<NoticeId> {
    if |ids| > MAX_SEEN then ids[|ids| - MAX_SEEN..] else ids
  }

  lemma {:induction false} FreshAreKept(seen: seq<NoticeId>, ids: seq<NoticeId>)
    requires |seen| <= MAX_SEEN && Distinct(seen + ids)
    ensures RememberAll(seen, ids) == Newest(seen + ids)
    decreases |ids|
  {
    if |ids| == 0 {
      assert seen + ids == seen;
    } else {
      var next, rest := Remember(seen, ids[0]), ids[1..];
      forall i | 0 <= i < |seen| ensures seen[i] != ids[0] {
        assert (seen + ids)[i] == seen[i] && (seen + ids)[|seen|] == ids[0];
      }
      assert next + rest == if |seen| == MAX_SEEN then (seen + ids)[1..] else seen + ids;
      FreshAreKept(next, rest);
    }
  }

  /** The bound is exact: while new identifiers come in, a notice is taken again once 128 of them have. */
  lemma RepeatsExactly(context: string, seen: seq<NoticeId>, m: Message, ids: seq<NoticeId>)
    requires Bounded(seen) && Invalidates(context, seen, m) && Distinct(Remember(seen, m.id) + ids)
    ensures Invalidates(context, RememberAll(Remember(seen, m.id), ids), m) <==> |ids| >= MAX_SEEN
  {
    var next := Remember(seen, m.id);
    RememberKeeps(seen, m.id);
    FreshAreKept(next, ids);
    var all, last := next + ids, |next| - 1;
    assert all[last] == m.id;
    if |ids| >= MAX_SEEN {
      assert forall i :: last < i < |all| ==> all[i] != m.id;
    } else {
      RepeatsAreIgnored(context, seen, m, ids);
    }
  }
}
