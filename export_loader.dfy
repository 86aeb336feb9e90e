/**
 * The older texture loader of the export settings page
 * (src/ui/main/export/export_settings/process.rs, `AsyncTextureLoader`).
 *
 * It receives the same messages as the preview loader, but it has no
 * save-error status, it keeps receiving after a cancel (only `Done` and
 * `Error` end it), and on `Done` it hands its textures over to the image
 * generator, leaving its own list empty.  The channel is again the
 * sequence `rx` of messages sent and not yet received.
 */
module ExportLoader {
  import opened LoaderCommon

  /** `LoaderStatus`; the generated image that `Done` carries is not modelled. */
  datatype LoaderStatus =
    | Loading(frac: Frac, current: string)
    | Done
    | Cancelled
    | Error(message: string)

  /** The loader's fields other than the channel. */
  datatype Loader<T> = Loader(status: LoaderStatus, textures: seq<T>, loaded: nat)

  /** The statuses in which `get_status` receives nothing: `Cancelled` is not one of them. */
  predicate Settled(s: LoaderStatus)
  {
    s.Error? || s.Done?
  }

  /** One received message: the new fields, and whether the receiving loop stops. */
  function Receive<T>(l: Loader<T>, m: LoaderMsg<T>): (Loader<T>, bool)
  {
    match m
    case Progress(n, total, current) =>
      (l.(loaded := l.loaded + n, status := Loading(Frac(l.loaded + n, total), current)), false)
    case Image(t) => (l.(textures := l.textures + [t]), false)
    case Done => (l.(status := LoaderStatus.Done, textures := []), true)
    case Error(e) => (l.(status := LoaderStatus.Error(e)), true)
  }

  /** The receiving loop over the channel: the new fields and the messages still unreceived. */
  function Drain<T>(l: Loader<T>, rx: seq<LoaderMsg<T>>): (Loader<T>, seq<LoaderMsg<T>>)
    decreases |rx|
  {
    if rx == [] then (l, [])
    else
      var (l', stop) := Receive(l, rx[0]);
      if stop then (l', rx[1..]) else Drain(l', rx[1..])
  }

  /** `get_status`: receive unless the loader has finished or failed. */
  function Poll<T>(l: Loader<T>, rx: seq<LoaderMsg<T>>): (r: (Loader<T>, seq<LoaderMsg<T>>))
    ensures Settled(l.status) ==> r == (l, rx)
  {
    if Settled(l.status) then (l, rx) else Drain(l, rx)
  }

  /**
   * The loop receives the channel up to and including the first `Done` or
   * `Error`, or all of it when there is none, and `loaded` grows by the
   * counts of the received `Progress` messages.
   */
  lemma {:induction false} DrainCounts<T>(l: Loader<T>, rx: seq<LoaderMsg<T>>)
    decreases |rx|
    ensures var (r, rest) := Drain(l, rx);
      var k := |rx| - |rest|;
      && 0 <= k <= |rx| && rest == rx[k..]
      && r.loaded == l.loaded + ProgressSum(rx[..k])
      && (forall j | 0 <= j < k - 1 :: !rx[j].Done? && !rx[j].Error?)
      && (rest != [] ==> k > 0 && (rx[k - 1].Done? || rx[k - 1].Error?))
  {
    if rx != [] {
      var (l', stop) := Receive(l, rx[0]);
      var (r, rest) := Drain(l, rx);
      var k := |rx| - |rest|;
      if !stop {
        DrainCounts(l', rx[1..]);
      }
      assert rx[..k][1..] == rx[1..][..k - 1];
    }
  }

  /**
   * Stopping on `Done` leaves `Done` with the texture list emptied;
   * stopping on `Error(m)` leaves `Error(m)`; receiving everything without
   * stopping leaves the textures grown by the `Image` messages, in order.
   */
  lemma {:induction false} DrainOutcome<T>(l: Loader<T>, rx: seq<LoaderMsg<T>>)
    decreases |rx|
    ensures var (r, rest) := Drain(l, rx);
      var k := |rx| - |rest|;
      && 0 <= k <= |rx|
      && (k > 0 && rx[k - 1].Done? ==> r.status == LoaderStatus.Done && r.textures == [])
      && (k > 0 && rx[k - 1].Error? ==> r.status == LoaderStatus.Error(rx[k - 1].message))
      && (rest == [] && (forall j | 0 <= j < |rx| :: !rx[j].Done? && !rx[j].Error?) ==>
            r.textures == l.textures + Images(rx))
  {
    if rx != [] {
      var (l', stop) := Receive(l, rx[0]);
      if !stop {
        DrainOutcome(l', rx[1..]);
      }
    }
  }

  /** The loop never produces `Cancelled`. */
  lemma {:induction false} NeverCancels<T>(l: Loader<T>, rx: seq<LoaderMsg<T>>)
    decreases |rx|
    requires l.status != Cancelled
    ensures Drain(l, rx).0.status != Cancelled
  {
    if rx != [] {
      var (l', stop) := Receive(l, rx[0]);
      if !stop {
        NeverCancels(l', rx[1..]);
      }
    }
  }

  /** A cancelled loader still receives: a progress report puts it back to running, and it never returns to `Cancelled`. */
  lemma CancelledReceives<T>(l: Loader<T>, n: nat, total: nat, current: string, rest: seq<LoaderMsg<T>>)
    requires l.status == Cancelled
    ensures var (r, _) := Poll(l, [Progress(n, total, current)] + rest);
      r.status != Cancelled
  {
    var rx := [Progress(n, total, current)] + rest;
    assert rx[1..] == rest;
    NeverCancels(l.(loaded := l.loaded + n, status := Loading(Frac(l.loaded + n, total), current)), rest);
  }

  /** `AsyncTextureLoader`. */
  class AsyncTextureLoader<T> {
    var rx: seq<LoaderMsg<T>>
    var status: LoaderStatus
    var textures: seq<T>
    var loaded: nat

    function State(): Loader<T>
      reads this
    {
      Loader(status, textures, loaded)
    }

    /** `new`: loading with nothing received yet; `rx` is what the thread will send. */
    constructor (rx: seq<LoaderMsg<T>>)
      ensures this.rx == rx
      ensures status == Loading(Frac(0, 1), "Initialising.") && textures == [] && loaded == 0
    {
      this.rx := rx;
      status := Loading(Frac(0, 1), "Initialising.");
      textures := [];
      loaded := 0;
    }

    /** `cancel`: the status becomes `Cancelled`. */
    method Cancel()
      modifies this
      ensures status == Cancelled
      ensures textures == old(textures) && loaded == old(loaded) && rx == old(rx)
    {
      status := Cancelled;
    }

    /** `get_status`: the receiving loop, unless the loader has finished or failed. */
    method GetStatus() returns (s: LoaderStatus)
      modifies this
      ensures (State(), rx) == Poll(old(State()), old(rx))
      ensures s == status
    {
      if !Settled(status) {
        var stop := false;
        while !stop && rx != []
          invariant Poll(old(State()), old(rx)) == if stop then (State(), rx) else Drain(State(), rx)
          decreases |rx|
        {
          var m := rx[0];
          rx := rx[1..];
          match m {
            case Progress(n, total, current) =>
              loaded := loaded + n;
              status := Loading(Frac(loaded, total), current);
            case Image(t) =>
              textures := textures + [t];
            case Done =>
              textures := [];
              status := LoaderStatus.Done;
              stop := true;
            case Error(e) =>
              status := LoaderStatus.Error(e);
              stop := true;
          }
        }
      }
      s := status;
    }
  }
}
