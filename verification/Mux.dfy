/** The client's call multiplexer: which caller is waiting for which tag (client/mux.go). */
module Mux {
  import opened Bytes
  import opened Messages
  import opened Tags

  /** A Go channel of capacity one. */
  class Channel {
    var queue: seq<Message>
    var isClosed: bool

    constructor ()
      ensures queue == [] && !isClosed
    {
      queue, isClosed := [], false;
    }

    /** Neither blocks nor panics: the channel is open and has room. */
    method Send(m: Message)
      requires !isClosed && queue == []
      modifies this
      ensures queue == [m] && !isClosed
    {
      queue := [m];
    }

    method Close()
      requires !isClosed
      modifies this
      ensures isClosed && queue == old(queue)
    {
      isClosed := true;
    }
  }

  datatype Registration = Registered(tag: Tag, ch: Channel) | NoFreeTags | AlreadyInUse | IsClosed(err: Error)

  class CallMux {
    var pending: map<Tag, Channel>
    var next: Tag
    var closed: bool
    var closeErr: Option<Error>

    /** Every waiting caller has its own open, empty channel; a closed mux has none waiting. */
    ghost predicate Valid()
      reads this, pending.Values
    {
      && (forall t :: t in pending ==> !pending[t].isClosed && pending[t].queue == [])
      && (forall t, u :: t in pending && u in pending && pending[t] == pending[u] ==> t == u)
      && (closed ==> pending == map[])
      && closed == closeErr.Some?
    }

    constructor ()
      ensures Valid() && pending == map[] && next == 0 && !closed
    {
      pending, next, closed, closeErr := map[], 0, false, None;
    }

    /** Takes the first usable tag at or after the counter, in at most 65535 probes, and leaves the
        counter just behind the last tag probed. */
    method Register() returns (r: Registration)
      requires Valid()
      modifies this
      ensures Valid() && closed == old(closed) && closeErr == old(closeErr)
      ensures r.IsClosed? <==> closed
      ensures closed ==> next == old(next) && pending == old(pending) && Some(r.err) == closeErr
      ensures !closed ==>
                match Probe(old(pending).Keys, old(next), PROBES)
                case Some(c) =>
                  && r.Registered? && r.tag == TagAt(c) && fresh(r.ch)
                  && pending == old(pending)[r.tag := r.ch] && next == TagAt(c + 1)
                case None =>
                  r == NoFreeTags && pending == old(pending) && next == TagAt(old(next) + PROBES)
    {
      hide TagAt;
      if closed {
        return IsClosed(closeErr.value);
      }
      ghost var c: nat := next;
      var i := 0;
      NextTag(next);
      while i < PROBES
        invariant 0 <= i <= PROBES && c == old(next) + i && next == TagAt(c)
        invariant pending == old(pending) && !closed && closeErr == old(closeErr) && Valid()
        invariant Probe(pending.Keys, old(next), PROBES) == Probe(pending.Keys, c, PROBES - i)
      {
        var t := next;
        NextTag(c);
        next := (next + 1) % TAG_SPACE;
        if t == NO_TAG || t in pending {
          c, i := c + 1, i + 1;
          continue;
        }
        var ch := new Channel();
        pending := pending[t := ch];
        return Registered(t, ch);
      }
      return NoFreeTags;
    }

    static lemma NextTag(c: nat)
      ensures TagAt(c + 1) == (TagAt(c) + 1) % TAG_SPACE
      ensures c < TAG_SPACE ==> TagAt(c) == c
    {
    }

    /** Reserves one given tag: the version handshake's NO_TAG. */
    method RegisterTag(t: Tag) returns (r: Registration)
      requires Valid()
      modifies this
      ensures Valid() && closed == old(closed) && closeErr == old(closeErr) && next == old(next)
      ensures r.IsClosed? <==> closed
      ensures r == AlreadyInUse <==> !closed && t in old(pending)
      ensures r.Registered? ==> r.tag == t && fresh(r.ch) && pending == old(pending)[t := r.ch]
      ensures !r.Registered? ==> pending == old(pending)
      ensures !r.NoFreeTags?
    {
      if closed {
        return IsClosed(closeErr.value);
      }
      if t in pending {
        return AlreadyInUse;
      }
      var ch := new Channel();
      pending := pending[t := ch];
      return Registered(t, ch);
    }

    method Forget(t: Tag)
      requires Valid()
      modifies this
      ensures Valid() && pending == old(pending) - {t}
      ensures next == old(next) && closed == old(closed) && closeErr == old(closeErr)
    {
      pending := pending - {t};
    }

    /** Hands a reply to whoever waits on its tag, who then no longer does; with no one waiting the
        reply is dropped and no channel is touched. */
    method Deliver(t: Tag, msg: Message)
      requires Valid()
      modifies this, pending.Values
      ensures Valid() && pending == old(pending) - {t}
      ensures next == old(next) && closed == old(closed) && closeErr == old(closeErr)
      ensures t in old(pending) ==> old(pending)[t].queue == [msg] && !old(pending)[t].isClosed
      ensures forall c :: c in old(pending).Values && (t !in old(pending) || c != old(pending)[t]) ==>
                c.queue == old(c.queue) && c.isClosed == old(c.isClosed)
    {
      if t in pending {
        var ch := pending[t];
        assert forall u :: u in pending && u != t ==> pending[u] != ch;
        pending := pending - {t};
        ch.Send(msg);
      }
    }

    /** Fails every waiting caller, once; the mux takes no one after that. */
    method CloseAll(err: Error)
      requires Valid()
      modifies this, pending.Values
      ensures Valid() && closed && pending == map[] && next == old(next)
      ensures closeErr == if old(closed) then old(closeErr) else Some(err)
      ensures forall c :: c in old(pending).Values ==> c.isClosed && c.queue == []
    {
      if closed {
        return;
      }
      closed, closeErr := true, Some(err);
      var waiting := pending;
      pending := map[];
      var left := waiting.Keys;
      while left != {}
        invariant left <= waiting.Keys && waiting == old(pending) && pending == map[]
        invariant closed && closeErr == Some(err) && next == old(next)
        invariant forall t :: t in left ==> !waiting[t].isClosed
        invariant forall t :: t in waiting ==> waiting[t].queue == []
        invariant forall t :: t in waiting && t !in left ==> waiting[t].isClosed
        decreases left
      {
        var t :| t in left;
        left := left - {t};
        waiting[t].Close();
      }
    }
  }
}
