/**
 * The debounced publisher of both page components: `debounce(updateUrl, 1000)`
 * and the effect that calls it with every committed document and cancels it on
 * cleanup. Timers run on a logical millisecond clock. A publish pushes the
 * encoded document as a new history entry, raises `isUpdating`, and lowers it
 * again 500 ms later; that second timer belongs to `updateUrl`'s own `await`
 * and `cancel` does not reach it.
 */
module Sync {
  import opened Wrappers
  import opened Document
  import Codec

  /** The debounce window of `debounce(updateUrl, 1000)`. */
  const Wait: nat := 1000
  /** How long `updateUrl` keeps `isUpdating` raised. */
  const Hold: nat := 500

  /** The one `setTimeout` the debounced function keeps in its `timeout` variable. */
  datatype Timer = Timer(due: int, doc: EmbedData)

  /**
   * `now` is the logical clock, `pending` the debounce slot, `clearAt` the
   * moment `updateUrl` lowers `isUpdating`, and `history` the `data`
   * parameters pushed so far (oldest first).
   */
  datatype SyncState = SyncState(
    now: int,
    pending: Option<Timer>,
    isUpdating: bool,
    clearAt: Option<int>,
    history: seq<string>)

  /** The states the machine can reach. */
  predicate Inv(s: SyncState) {
    && (s.isUpdating <==> s.clearAt.Some?)
    && (s.pending.Some? ==> s.now < s.pending.value.due <= s.now + Wait)
    && (s.clearAt.Some? ==> s.now < s.clearAt.value <= s.now + Hold)
    && (s.pending.Some? && s.clearAt.Some? ==> s.clearAt.value < s.pending.value.due)
  }

  /** Nothing scheduled, nothing published, at time t. */
  function Start(t: int): (s: SyncState)
    ensures Inv(s) && s.pending.None? && !s.isUpdating && s.history == []
  {
    SyncState(t, None, false, None, [])
  }

  /** `debounced(d)`: clear the pending timer, if any, and schedule d one window from now. */
  function Debounce(s: SyncState, d: EmbedData): (r: SyncState)
    requires Inv(s)
    ensures Inv(r)
    ensures r.pending == Some(Timer(s.now + Wait, d))
    ensures r.(pending := s.pending) == s
  {
    s.(pending := Some(Timer(s.now + Wait, d)))
  }

  /** `debounced.cancel()`: clear the pending timer, if any. */
  function CancelPending(s: SyncState): (r: SyncState)
    requires Inv(s)
    ensures Inv(r)
    ensures r.pending.None?
    ensures r.(pending := s.pending) == s
  {
    s.(pending := None)
  }

  /** The pending timer fires: `updateUrl(doc)` pushes the token and raises the flag. */
  function Fire(f: Codec.Foreign, s: SyncState): SyncState
    requires s.pending.Some?
  {
    var t := s.pending.value;
    s.(pending := None, isUpdating := true, clearAt := Some(t.due + Hold),
       history := s.history + [Codec.EncodeEmbedData(f, t.doc)])
  }

  /** The `await` in `updateUrl` ends: the flag is lowered. */
  function Clear(s: SyncState): SyncState {
    s.(isUpdating := false, clearAt := None)
  }

  /** Clear when the clear is due by t. */
  function ClearBy(s: SyncState, t: int): SyncState {
    if s.clearAt.Some? && s.clearAt.value <= t then Clear(s) else s
  }

  /**
   * Let the clock run to t, running every timer due by then in order of
   * their due times: an old clear always precedes the pending fire, and
   * the fire's own clear follows it.
   */
  function AdvanceTo(f: Codec.Foreign, s: SyncState, t: int): (r: SyncState)
    requires Inv(s) && s.now <= t
    ensures Inv(r) && r.now == t
    ensures r.pending == (if s.pending.Some? && s.pending.value.due <= t then None else s.pending)
    ensures r.history == s.history +
      (if s.pending.Some? && s.pending.value.due <= t then [Codec.EncodeEmbedData(f, s.pending.value.doc)] else [])
  {
    var s1 := ClearBy(s, t);
    var s2 := if s1.pending.Some? && s1.pending.value.due <= t then Fire(f, s1) else s1;
    ClearBy(s2, t).(now := t)
  }

  /** The effect run for a committed document: cleanup `cancel()` then `debounced(d)`. */
  function Reschedule(s: SyncState, d: EmbedData): SyncState
    requires Inv(s)
  {
    Debounce(CancelPending(s), d)
  }

  // ---- properties ------------------------------------------------------------------

  /** `cancel` is idempotent and leaves nothing pending. */
  lemma CancelIdempotent(s: SyncState)
    requires Inv(s)
    ensures CancelPending(CancelPending(s)) == CancelPending(s)
    ensures CancelPending(s).pending.None?
  {
  }

  /** The cleanup `cancel` before a call makes no difference: `debounced` clears the slot itself. */
  lemma CancelBeforeCall(s: SyncState, d: EmbedData)
    requires Inv(s)
    ensures Reschedule(s, d) == Debounce(s, d)
  {
  }

  /**
   * A publish raises `isUpdating` for exactly 500 ms: once the pending timer
   * has fired at its due time, the flag is up until due + 500 and down from then on
   * (as long as no new call intervenes).
   */
  lemma UpdatingWindow(f: Codec.Foreign, s: SyncState, t: int)
    requires Inv(s) && s.pending.Some? && s.pending.value.due <= t
    ensures AdvanceTo(f, s, t).isUpdating <==> t < s.pending.value.due + Hold
  {
  }

  /** One edit at time t: the clock runs to t, then the new document is rescheduled. */
  datatype Edit = Edit(at: int, doc: EmbedData)

  /** Edits whose times never decrease. */
  predicate Chronological(edits: seq<Edit>) {
    forall j, k :: 0 <= j < k < |edits| ==> edits[j].at <= edits[k].at
  }

  /** Edits in time order, each less than one window after the one before. */
  predicate Burst(edits: seq<Edit>) {
    && Chronological(edits)
    && forall k :: 0 < k < |edits| ==> edits[k].at < edits[k - 1].at + Wait
  }

  /** The machine after each edit in turn. */
  function Replay(f: Codec.Foreign, s: SyncState, edits: seq<Edit>): (r: SyncState)
    requires Inv(s) && Chronological(edits)
    requires edits != [] ==> s.now <= edits[0].at
    ensures Inv(r)
    ensures r.now == if edits == [] then s.now else edits[|edits| - 1].at
    decreases |edits|
  {
    if edits == [] then s
    else
      var s1 := Reschedule(AdvanceTo(f, s, edits[0].at), edits[0].doc);
      assert Chronological(edits[1..]) by {
        forall j, k | 0 <= j < k < |edits| - 1 ensures edits[1..][j].at <= edits[1..][k].at {
          assert edits[1..][j] == edits[j + 1] && edits[1..][k] == edits[k + 1];
        }
      }
      assert |edits| > 1 ==> edits[1..][0] == edits[1];
      var r := Replay(f, s1, edits[1..]);
      assert |edits| > 1 ==> edits[1..][|edits| - 2] == edits[|edits| - 1];
      r
  }

  /**
   * Debounce: a burst of edits that starts before the pending timer is due
   * publishes nothing while it lasts and leaves exactly one publish pending,
   * of the last document, one window after the last edit.
   */
  lemma {:induction false} BurstCollapses(f: Codec.Foreign, s: SyncState, edits: seq<Edit>)
    requires Inv(s) && |edits| > 0 && Burst(edits)
    requires s.now <= edits[0].at
    requires s.pending.Some? ==> edits[0].at < s.pending.value.due
    ensures var r := Replay(f, s, edits);
      && r.history == s.history
      && r.pending == Some(Timer(edits[|edits| - 1].at + Wait, edits[|edits| - 1].doc))
    decreases |edits|
  {
    var s1 := Reschedule(AdvanceTo(f, s, edits[0].at), edits[0].doc);
    if |edits| > 1 {
      BurstTail(edits);
      BurstCollapses(f, s1, edits[1..]);
    }
  }

  /** What is left of a burst after its first edit is again a burst, with the same last edit. */
  lemma BurstTail(edits: seq<Edit>)
    requires |edits| > 1 && Burst(edits)
    ensures Burst(edits[1..])
    ensures edits[1..][0] == edits[1] && edits[1].at < edits[0].at + Wait
    ensures edits[1..][|edits[1..]| - 1] == edits[|edits| - 1]
  {
    forall j, k | 0 <= j < k < |edits| - 1 ensures edits[1..][j].at <= edits[1..][k].at {
      assert edits[1..][j] == edits[j + 1] && edits[1..][k] == edits[k + 1];
    }
    forall k | 0 < k < |edits| - 1 ensures edits[1..][k].at < edits[1..][k - 1].at + Wait {
      assert edits[1..][k - 1] == edits[k] && edits[1..][k] == edits[k + 1];
    }
  }

  /**
   * When the window after a burst runs out with no further edit, exactly one
   * history entry is added, and on reload it decodes to the burst's last document.
   */
  lemma BurstPublishesLast(f: Codec.Foreign, s: SyncState, edits: seq<Edit>)
    requires Inv(s) && |edits| > 0 && Burst(edits)
    requires s.now <= edits[0].at
    requires s.pending.Some? ==> edits[0].at < s.pending.value.due
    requires Codec.RoundTripsAt(f, edits[|edits| - 1].doc)
    ensures var r := Replay(f, s, edits); var last := edits[|edits| - 1];
      var p := AdvanceTo(f, r, last.at + Wait);
      && p.history == s.history + [Codec.EncodeEmbedData(f, last.doc)]
      && Codec.DecodeEmbedData(f, Codec.EncodeEmbedData(f, last.doc)) == Some(last.doc)
      && p.pending.None? && p.isUpdating
  {
    BurstCollapses(f, s, edits);
    Codec.RoundTrip(f, edits[|edits| - 1].doc);
  }

  /**
   * The closure `debounce` returns, with its mutable `timeout`, together with
   * the `isUpdating` state and the history entries `updateUrl` pushes. Every
   * method is the pure transition of the same name on `State()`.
   */
  class Debouncer {
    const foreign: Codec.Foreign
    var now: int
    var pending: Option<Timer>
    var isUpdating: bool
    var clearAt: Option<int>
    var history: seq<string>

    function State(): SyncState
      reads this
    {
      SyncState(now, pending, isUpdating, clearAt, history)
    }

    predicate Valid()
      reads this
    {
      Inv(State())
    }

    constructor (f: Codec.Foreign, t: int)
      ensures Valid() && State() == Start(t) && foreign == f
    {
      foreign := f;
      now := t;
      pending := None;
      isUpdating := false;
      clearAt := None;
      history := [];
    }

    /** `debounced(d)`: the pending slot now holds d, due one window from now. */
    method Call(d: EmbedData)
      requires Valid()
      modifies this
      ensures Valid() && State() == Debounce(old(State()), d)
    {
      pending := Some(Timer(now + Wait, d));
    }

    /** `debounced.cancel()` */
    method Cancel()
      requires Valid()
      modifies this
      ensures Valid() && State() == CancelPending(old(State()))
    {
      if pending.Some? {
        pending := None;
      }
    }

    /** Run every timer due by t, in order of due time, and set the clock to t. */
    method Tick(t: int)
      requires Valid() && now <= t
      modifies this
      ensures Valid() && State() == AdvanceTo(foreign, old(State()), t)
    {
      RunClear(t);
      if pending.Some? && pending.value.due <= t {
        RunPending();
      }
      RunClear(t);
      now := t;
    }

    /** The 500 ms timer of a finished `updateUrl`, when it is due by t. */
    method RunClear(t: int)
      modifies this
      ensures State() == ClearBy(old(State()), t)
    {
      if clearAt.Some? && clearAt.value <= t {
        isUpdating := false;
        clearAt := None;
      }
    }

    /** The debounce timer runs `updateUrl` with the document it holds. */
    method RunPending()
      requires pending.Some?
      modifies this
      ensures State() == Fire(foreign, old(State()))
    {
      var timer := pending.value;
      pending := None;
      isUpdating := true;
      history := history + [Codec.EncodeEmbedData(foreign, timer.doc)];
      clearAt := Some(timer.due + Hold);
    }
  }
}
