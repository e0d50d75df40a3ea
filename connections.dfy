/**
 * The server's `ConnectionManager` (`websocket.py`): the open connections
 * sorted into four buckets by client kind, and the recipients of a broadcast.
 * The connection type is a parameter; only its identity matters.
 */
module Connections {
  import opened Wrappers

  const CANVAS := "canvas"
  const DISPLAY := "display"
  const ADMIN := "admin"
  const UNKNOWN := "unknown"

  /** The bucket names in the order the dictionary keeps them. */
  const KINDS: seq<string> := [CANVAS, DISPLAY, ADMIN, UNKNOWN]

  /** The kinds `broadcast` reaches when the caller names none. */
  const DEFAULT_AUDIENCE: seq<string> := [DISPLAY, ADMIN]

  /** The four buckets, and nothing else, are present. */
  predicate WellFormed<C>(b: map<string, seq<C>>) {
    b.Keys == {CANVAS, DISPLAY, ADMIN, UNKNOWN}
  }

  /** Python's `list.remove(x)` when `x` is present: the first occurrence goes. */
  function RemoveFirst<C(==)>(s: seq<C>, x: C): (r: seq<C>)
    ensures x in s ==> |r| == |s| - 1 && multiset(r) == multiset(s) - multiset{x}
    ensures x !in s ==> r == s
  {
    if |s| == 0 then s
    else
      assert s == [s[0]] + s[1..];
      if s[0] == x then s[1..] else [s[0]] + RemoveFirst(s[1..], x)
  }

  /** The first of `kinds` whose bucket holds `c`. */
  function FirstHolder<C(==)>(b: map<string, seq<C>>, kinds: seq<string>, c: C): (r: Option<string>)
    requires forall k :: k in kinds ==> k in b
    ensures r.Some? ==> r.value in kinds && c in b[r.value]
    ensures r.None? ==> forall k :: k in kinds ==> c !in b[k]
  {
    if |kinds| == 0 then None
    else if c in b[kinds[0]] then Some(kinds[0])
    else FirstHolder(b, kinds[1..], c)
  }

  /** Every connection, bucket by bucket: what `broadcast_all` sends to. */
  function Everyone<C>(b: map<string, seq<C>>): seq<C>
    requires WellFormed(b)
  {
    b[CANVAS] + b[DISPLAY] + b[ADMIN] + b[UNKNOWN]
  }

  /** `connect`: a new connection joins the end of the unknown bucket. */
  function Connected<C>(b: map<string, seq<C>>, c: C): map<string, seq<C>>
    requires WellFormed(b)
  {
    b[UNKNOWN := b[UNKNOWN] + [c]]
  }

  /** `disconnect`: the first bucket holding `c` loses its first occurrence of `c`. */
  function Disconnected<C(==)>(b: map<string, seq<C>>, c: C): map<string, seq<C>>
    requires WellFormed(b)
  {
    match FirstHolder(b, KINDS, c)
    case None => b
    case Some(k) => b[k := RemoveFirst(b[k], c)]
  }

  /**
   * `set_client_type`: a connection waiting in the unknown bucket moves to the
   * end of the named bucket, or of the unknown bucket for a name that is not
   * one; a connection not waiting there is left alone.
   */
  function ClientTypeSet<C(==)>(b: map<string, seq<C>>, c: C, kind: string): map<string, seq<C>>
    requires WellFormed(b)
  {
    if c !in b[UNKNOWN] then b
    else
      var waiting := b[UNKNOWN := RemoveFirst(b[UNKNOWN], c)];
      var target := if kind in waiting then kind else UNKNOWN;
      waiting[target := waiting[target] + [c]]
  }

  /**
   * The connections `broadcast(message, kinds)` sends to, in order: the
   * buckets of the named kinds up to the first name that is not a bucket,
   * where the call raises `KeyError`.
   */
  function Recipients<C>(b: map<string, seq<C>>, kinds: seq<string>): seq<C> {
    if |kinds| == 0 || kinds[0] !in b then []
    else b[kinds[0]] + Recipients(b, kinds[1..])
  }

  /** Whether `broadcast(message, kinds)` returns normally: every named kind is a bucket. */
  predicate Completes<C>(b: map<string, seq<C>>, kinds: seq<string>) {
    forall k :: k in kinds ==> k in b
  }

  /** Replacing one bucket replaces its connections in `Everyone` and keeps the others. */
  lemma EveryoneUpdate<C>(b: map<string, seq<C>>, k: string, s: seq<C>)
    requires WellFormed(b) && k in b
    ensures WellFormed(b[k := s])
    ensures multiset(Everyone(b[k := s])) + multiset(b[k]) == multiset(Everyone(b)) + multiset(s)
  {
    var b' := b[k := s];
    assert multiset(Everyone(b)) == multiset(b[CANVAS]) + multiset(b[DISPLAY]) + multiset(b[ADMIN]) + multiset(b[UNKNOWN]);
    assert multiset(Everyone(b')) == multiset(b'[CANVAS]) + multiset(b'[DISPLAY]) + multiset(b'[ADMIN]) + multiset(b'[UNKNOWN]);
  }

  /** Removing the first occurrence of a held connection from a bucket takes it out of `Everyone` once. */
  lemma EveryoneRemove<C>(b: map<string, seq<C>>, k: string, c: C)
    requires WellFormed(b) && k in b && c in b[k]
    ensures WellFormed(b[k := RemoveFirst(b[k], c)])
    ensures multiset(Everyone(b[k := RemoveFirst(b[k], c)])) + multiset{c} == multiset(Everyone(b))
    ensures multiset(Everyone(b[k := RemoveFirst(b[k], c)])) == multiset(Everyone(b)) - multiset{c}
  {
    var r := RemoveFirst(b[k], c);
    var after := multiset(Everyone(b[k := r]));
    EveryoneUpdate(b, k, r);
    assert multiset(b[k]) == multiset(r) + multiset{c};
    Cancel(after + multiset{c}, multiset(Everyone(b)), multiset(r));
    AddThenRemove(after, c);
  }

  /** A multiset added to both sides of an equation can be cancelled. */
  lemma Cancel<T>(a: multiset<T>, b: multiset<T>, x: multiset<T>)
    requires a + x == b + x
    ensures a == b
  {
    forall t ensures a[t] == b[t] {
      assert (a + x)[t] == (b + x)[t];
    }
  }

  /** Adding one occurrence and removing it again gives the multiset back. */
  lemma AddThenRemove<T>(a: multiset<T>, c: T)
    ensures (a + multiset{c}) - multiset{c} == a
  {
  }

  /** Appending a connection to a bucket adds it to `Everyone` once. */
  lemma EveryoneAppend<C>(b: map<string, seq<C>>, k: string, c: C)
    requires WellFormed(b) && k in b
    ensures WellFormed(b[k := b[k] + [c]])
    ensures multiset(Everyone(b[k := b[k] + [c]])) == multiset(Everyone(b)) + multiset{c}
  {
    EveryoneUpdate(b, k, b[k] + [c]);
  }

  /** A new connection is one more connection, waiting in the unknown bucket; no other bucket changes. */
  lemma ConnectSpec<C>(b: map<string, seq<C>>, c: C)
    requires WellFormed(b)
    ensures WellFormed(Connected(b, c))
    ensures multiset(Everyone(Connected(b, c))) == multiset(Everyone(b)) + multiset{c}
    ensures forall k :: k in b && k != UNKNOWN ==> Connected(b, c)[k] == b[k]
  {
    EveryoneAppend(b, UNKNOWN, c);
  }

  /** Disconnecting takes exactly one occurrence of the connection away, and nothing when it is absent. */
  lemma DisconnectSpec<C>(b: map<string, seq<C>>, c: C)
    requires WellFormed(b)
    ensures WellFormed(Disconnected(b, c))
    ensures multiset(Everyone(Disconnected(b, c))) == multiset(Everyone(b)) - multiset{c}
  {
    match FirstHolder(b, KINDS, c)
    case None =>
      assert c !in Everyone(b);
    case Some(k) =>
      EveryoneRemove(b, k, c);
  }

  /** A connection that was not connected before is gone again after connecting and disconnecting. */
  lemma ConnectDisconnect<C>(b: map<string, seq<C>>, c: C)
    requires WellFormed(b) && c !in Everyone(b)
    ensures Disconnected(Connected(b, c), c) == b
  {
    var b' := Connected(b, c);
    assert c !in b'[CANVAS] && c !in b'[DISPLAY] && c !in b'[ADMIN] && c in b'[UNKNOWN];
    assert KINDS[1..] == [DISPLAY, ADMIN, UNKNOWN] && KINDS[1..][1..] == [ADMIN, UNKNOWN];
    assert KINDS[1..][1..][1..] == [UNKNOWN];
    assert FirstHolder(b', KINDS, c) == Some(UNKNOWN);
    RemoveLast(b[UNKNOWN], c);
  }

  /** Removing the first occurrence of an element that only occurs at the end takes that end off. */
  lemma {:induction false} RemoveLast<C>(s: seq<C>, c: C)
    requires c !in s
    ensures RemoveFirst(s + [c], c) == s
  {
    if |s| > 0 {
      assert (s + [c])[1..] == s[1..] + [c];
      RemoveLast(s[1..], c);
    }
  }

  /** Setting the kind never adds or loses a connection. */
  lemma ClientTypeSpec<C>(b: map<string, seq<C>>, c: C, kind: string)
    requires WellFormed(b)
    ensures WellFormed(ClientTypeSet(b, c, kind))
    ensures multiset(Everyone(ClientTypeSet(b, c, kind))) == multiset(Everyone(b))
  {
    if c in b[UNKNOWN] {
      var waiting := b[UNKNOWN := RemoveFirst(b[UNKNOWN], c)];
      EveryoneRemove(b, UNKNOWN, c);
      var target := if kind in waiting then kind else UNKNOWN;
      EveryoneAppend(waiting, target, c);
    }
  }

  /**
   * A waiting connection named with a real kind other than unknown ends up
   * last in that bucket, with one occurrence fewer waiting.
   */
  lemma ClientTypeMoves<C>(b: map<string, seq<C>>, c: C, kind: string)
    requires WellFormed(b) && c in b[UNKNOWN] && kind in b && kind != UNKNOWN
    ensures ClientTypeSet(b, c, kind)[kind] == b[kind] + [c]
    ensures multiset(ClientTypeSet(b, c, kind)[UNKNOWN]) == multiset(b[UNKNOWN]) - multiset{c}
  {
  }

  /**
   * The default audience is the display connections followed by the admin
   * connections, and a broadcast to every kind in dictionary order reaches
   * exactly `Everyone`.
   */
  lemma AudienceSpec<C>(b: map<string, seq<C>>)
    requires WellFormed(b)
    ensures Completes(b, DEFAULT_AUDIENCE) && Recipients(b, DEFAULT_AUDIENCE) == b[DISPLAY] + b[ADMIN]
    ensures Completes(b, KINDS) && Recipients(b, KINDS) == Everyone(b)
  {
    assert DEFAULT_AUDIENCE[1..] == [ADMIN] && [ADMIN][1..] == [];
    assert b[ADMIN] + [] == b[ADMIN] && b[UNKNOWN] + [] == b[UNKNOWN];
    assert KINDS[1..] == [DISPLAY, ADMIN, UNKNOWN] && KINDS[1..][1..] == [ADMIN, UNKNOWN];
    assert [ADMIN, UNKNOWN][1..] == [UNKNOWN] && [UNKNOWN][1..] == [];
    assert Recipients(b, [UNKNOWN]) == b[UNKNOWN] + Recipients(b, []);
    assert Recipients(b, [ADMIN]) == b[ADMIN] + Recipients(b, []);
    assert Recipients(b, [ADMIN, UNKNOWN]) == b[ADMIN] + Recipients(b, [UNKNOWN]);
    assert Recipients(b, [DISPLAY, ADMIN, UNKNOWN]) == b[DISPLAY] + Recipients(b, [ADMIN, UNKNOWN]);
  }

  /**
   * A broadcast that completes reaches a connection exactly when one of the
   * named buckets holds it.
   */
  lemma {:induction false} RecipientsSpec<C>(b: map<string, seq<C>>, kinds: seq<string>, c: C)
    ensures Completes(b, kinds) ==> (c in Recipients(b, kinds) <==> exists k :: k in kinds && c in b[k])
  {
    if |kinds| > 0 {
      RecipientsSpec(b, kinds[1..], c);
      assert forall k :: k in kinds <==> k == kinds[0] || k in kinds[1..];
    }
  }

  /**
   * One step of a broadcast over `kinds[i..]`: a bucket name contributes its
   * bucket and the broadcast goes on; a missing name ends it without completing.
   */
  lemma RecipientsStep<C>(b: map<string, seq<C>>, kinds: seq<string>, i: int)
    requires 0 <= i < |kinds|
    ensures kinds[i] in b ==> Recipients(b, kinds[i..]) == b[kinds[i]] + Recipients(b, kinds[i + 1..])
    ensures kinds[i] !in b ==> Recipients(b, kinds[i..]) == [] && !Completes(b, kinds)
  {
    assert kinds[i..][0] == kinds[i] && kinds[i..][1..] == kinds[i + 1..];
  }

  class ConnectionManager<C(==)> {
    /** `active_connections`. */
    var active: map<string, seq<C>>

    predicate Valid()
      reads this
    {
      WellFormed(active)
    }

    /** `__init__`: the four buckets, all empty. */
    constructor ()
      ensures active == map[CANVAS := [], DISPLAY := [], ADMIN := [], UNKNOWN := []]
      ensures Valid()
    {
      active := map[CANVAS := [], DISPLAY := [], ADMIN := [], UNKNOWN := []];
    }

    /** `connect`: after the handshake the connection waits in the unknown bucket. */
    method Connect(c: C)
      requires Valid()
      modifies this
      ensures active == Connected(old(active), c) && Valid()
    {
      active := active[UNKNOWN := active[UNKNOWN] + [c]];
    }

    /** `disconnect`: look through the buckets in order and remove the first occurrence found. */
    method Disconnect(c: C)
      requires Valid()
      modifies this
      ensures active == Disconnected(old(active), c) && Valid()
    {
      var i := 0;
      while i < |KINDS|
        invariant 0 <= i <= |KINDS|
        invariant active == old(active)
        invariant FirstHolder(active, KINDS, c) == FirstHolder(active, KINDS[i..], c)
      {
        var kind := KINDS[i];
        if c in active[kind] {
          active := active[kind := RemoveFirst(active[kind], c)];
          return;
        }
        assert KINDS[i..][1..] == KINDS[i + 1..];
        i := i + 1;
      }
    }

    /** `set_client_type`: move a waiting connection to its bucket (or back to the end of the unknown one). */
    method SetClientType(c: C, kind: string)
      requires Valid()
      modifies this
      ensures active == ClientTypeSet(old(active), c, kind) && Valid()
    {
      if c in active[UNKNOWN] {
        active := active[UNKNOWN := RemoveFirst(active[UNKNOWN], c)];
        var target := kind;
        if target !in active {
          target := UNKNOWN;
        }
        active := active[target := active[target] + [c]];
      }
    }

    /**
     * `broadcast(message, kinds)`: the connections sent to, in order, and whether
     * it completed (an unknown kind raises `KeyError` partway).
     */
    method Broadcast(kinds: seq<string>) returns (sent: seq<C>, ok: bool)
      ensures sent == Recipients(active, kinds) && ok == Completes(active, kinds)
    {
      sent := [];
      var i := 0;
      assert kinds[0..] == kinds;
      while i < |kinds|
        invariant 0 <= i <= |kinds|
        invariant Recipients(active, kinds) == sent + Recipients(active, kinds[i..])
        invariant forall k :: k in kinds[..i] ==> k in active
      {
        var kind := kinds[i];
        RecipientsStep(active, kinds, i);
        if kind !in active {
          return sent, false;
        }
        var bucket := active[kind];
        var j := 0;
        ghost var before := sent;
        while j < |bucket|
          invariant 0 <= j <= |bucket|
          invariant sent == before + bucket[..j]
        {
          sent := sent + [bucket[j]];
          j := j + 1;
        }
        assert bucket[..j] == bucket;
        assert kinds[..i + 1] == kinds[..i] + [kind];
        i := i + 1;
      }
      assert kinds[..i] == kinds;
      return sent, true;
    }

    /** `broadcast_all`: every connection, bucket by bucket. */
    method BroadcastAll() returns (sent: seq<C>)
      requires Valid()
      ensures sent == Everyone(active)
    {
      sent := [];
      var i := 0;
      while i < |KINDS|
        invariant 0 <= i <= |KINDS|
        invariant Recipients(active, KINDS) == sent + Recipients(active, KINDS[i..])
      {
        var conns := active[KINDS[i]];
        ghost var before := sent;
        for j := 0 to |conns|
          invariant sent == before + conns[..j]
        {
          sent := sent + [conns[j]];
        }
        assert conns[..|conns|] == conns;
        assert KINDS[i..][1..] == KINDS[i + 1..];
        i := i + 1;
      }
      AudienceSpec(active);
    }
  }
}
