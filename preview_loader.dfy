/**
 * The preview page's texture loader (src/ui/main/export/preview/process.rs,
 * `AsyncTextureLoader`).
 *
 * A thread decodes the images of a folder and sends `LoaderMsg`s over a
 * channel; each frame `get_status` receives whatever has arrived, stopping
 * early after an error or a successful finish.  Here the channel is the
 * sequence `rx` of messages sent and not yet received, and receiving takes
 * the first one.  Once the loader has finished, failed, been cancelled or
 * failed to save, nothing more is received.
 */
module PreviewLoader {
  import opened LoaderCommon

  /** `LoaderStatus`. */
  datatype LoaderStatus =
    | Loading(frac: Frac, current: string)
    | Done
    | Cancelled
    | GenError(message: string)
    | SaveError(message: string)

  /** The status after a `Done` message with no texture received. */
  const NoImagesMessage := "Couldn't find any valid image files in that folder."

  /** The loader's fields other than the channel. */
  datatype Loader<T> = Loader(status: LoaderStatus, textures: seq<T>, loaded: nat)

  /** The statuses in which `get_status` receives nothing. */
  predicate Settled(s: LoaderStatus)
  {
    s.SaveError? || s.GenError? || s.Done? || s.Cancelled?
  }

  /** One received message: the new fields, and whether the receiving loop stops. */
  function Receive<T>(l: Loader<T>, m: LoaderMsg<T>): (Loader<T>, bool)
  {
    match m
    case Progress(n, total, current) =>
      (l.(loaded := l.loaded + n, status := Loading(Frac(l.loaded + n, total), current)), false)
    case Image(t) => (l.(textures := l.textures + [t]), false)
    case Done =>
      if l.textures == [] then (l.(status := GenError(NoImagesMessage)), false)
      else (l.(status := LoaderStatus.Done), true)
    case Error(e) => (l.(status := GenError(e)), true)
  }

  /** The receiving loop over the channel: the new fields and the messages still unreceived. */
  function Drain<T>(l: Loader<T>, rx: seq<LoaderMsg<T>>): (Loader<T>, seq<LoaderMsg<T>>)
    decreases |rx|
  {
    if rx == [] then (l, [])
    else
      var (l', stop) := Receive(l, rx[0]);
      if stop then (l', rx[1..]) else Drain(l', rx[1..])
  }

  /** `get_status`: receive only when the loader is still running. */
  function Poll<T>(l: Loader<T>, rx: seq<LoaderMsg<T>>): (r: (Loader<T>, seq<LoaderMsg<T>>))
    ensures Settled(l.status) ==> r == (l, rx)
  {
    if Settled(l.status) then (l, rx) else Drain(l, rx)
  }

  /**
   * The loop receives a prefix of the channel: `loaded` grows by the
   * counts of its `Progress` messages and the textures by its `Image`
   * messages, in order.
   */
  lemma {:induction false} DrainCounts<T>(l: Loader<T>, rx: seq<LoaderMsg<T>>)
    decreases |rx|
    ensures var (r, rest) := Drain(l, rx);
      var k := |rx| - |rest|;
      && 0 <= k <= |rx| && rest == rx[k..]
      && r.loaded == l.loaded + ProgressSum(rx[..k])
      && r.loaded >= l.loaded
      && r.textures == l.textures + Images(rx[..k])
  {
    if rx != [] {
      var (l', stop) := Receive(l, rx[0]);
      var (r, rest) := Drain(l, rx);
      var k := |rx| - |rest|;
      if !stop {
        DrainCounts(l', rx[1..]);
      }
      assert rx[..k][1..] == rx[1..][..k - 1];
    }
  }

  /**
   * The loop stops early only right after an `Error(m)`, leaving
   * `GenError(m)`, or after a `Done` with textures present, leaving
   * `Done`; no `Error` comes before the last received message.
   */
  lemma {:induction false} DrainStops<T>(l: Loader<T>, rx: seq<LoaderMsg<T>>)
    decreases |rx|
    ensures var (r, rest) := Drain(l, rx);
      var k := |rx| - |rest|;
      && 0 <= k <= |rx| && rest == rx[k..]
      && (forall j | 0 <= j < k - 1 :: !rx[j].Error?)
      && (rest != [] ==> k > 0)
      && (rest != [] ==>
            (rx[k - 1].Error? && r.status == GenError(rx[k - 1].message))
            || (rx[k - 1].Done? && r.status == LoaderStatus.Done && r.textures != []))
  {
    if rx != [] {
      var (l', stop) := Receive(l, rx[0]);
      if !stop {
        DrainStops(l', rx[1..]);
      }
    }
  }

  /** `AsyncTextureLoader`. */
  class AsyncTextureLoader<T> {
    var rx: seq<LoaderMsg<T>>
    var status: LoaderStatus
    var textures: seq<T>
    var loaded: nat

    function State(): Loader<T>
      reads this
    {
      Loader(status, textures, loaded)
    }

    /** `new`: loading with nothing received yet; `rx` is what the thread will send. */
    constructor (rx: seq<LoaderMsg<T>>)
      ensures this.rx == rx
      ensures status == Loading(Frac(0, 1), "Initialising.") && textures == [] && loaded == 0
    {
      this.rx := rx;
      status := Loading(Frac(0, 1), "Initialising.");
      textures := [];
      loaded := 0;
    }

    /** `cancel`: the status becomes `Cancelled`, and from then on nothing is received. */
    method Cancel()
      modifies this
      ensures status == Cancelled
      ensures textures == old(textures) && loaded == old(loaded) && rx == old(rx)
      ensures Poll(State(), rx) == (State(), rx)
    {
      status := Cancelled;
    }

    /** `is_loaded`. */
    predicate IsLoaded()
      reads this
    {
      status.Done?
    }

    /** `get_status`: the receiving loop, when the loader is still running. */
    method GetStatus() returns (s: LoaderStatus)
      modifies this
      ensures (State(), rx) == Poll(old(State()), old(rx))
      ensures s == status
    {
      if !Settled(status) {
        var stop := false;
        while !stop && rx != []
          invariant Poll(old(State()), old(rx)) == if stop then (State(), rx) else Drain(State(), rx)
          decreases |rx|
        {
          var m := rx[0];
          rx := rx[1..];
          match m {
            case Progress(n, total, current) =>
              loaded := loaded + n;
              status := Loading(Frac(loaded, total), current);
            case Image(t) =>
              textures := textures + [t];
            case Done =>
              if textures == [] {
                status := GenError(NoImagesMessage);
              } else {
                status := LoaderStatus.Done;
                stop := true;
              }
            case Error(e) =>
              status := GenError(e);
              stop := true;
          }
        }
      }
      s := status;
    }

    /** `reset_save_err`: a save error goes back to `Done`; from any other status the call is fatal. */
    method ResetSaveErr()
      requires status.SaveError?
      modifies this
      ensures status == LoaderStatus.Done
      ensures textures == old(textures) && loaded == old(loaded) && rx == old(rx)
    {
      status := LoaderStatus.Done;
    }
  }
}
