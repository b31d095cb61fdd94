/** The page-side start-up that the plugin's inline scripts set up: two global
    flags (declared false once per page), and for every viewer a listener on
    DOMContentLoaded and one on the i18n "loaded" callback. Each listener sets
    its flag and calls the viewer's launch function, which starts the viewer
    only when both flags are set. Events are inputs; nothing here runs in a
    browser. */
module LaunchBarrier {
  import opened PhpStrings

  /** The two page events the listeners wait for. */
  datatype PageEvent = DomContentLoaded | I18nLoaded

  /** The global flags domContentLoaded and i18nLoaded. */
  datatype Flags = Flags(domContentLoaded: bool, i18nLoaded: bool)

  /** var domContentLoaded = false; var i18nLoaded = false; */
  const InitialFlags := Flags(false, false)

  /** The flag a listener sets for its event. */
  function Apply(flags: Flags, e: PageEvent): (r: Flags)
    ensures r.domContentLoaded == (flags.domContentLoaded || e == DomContentLoaded)
    ensures r.i18nLoaded == (flags.i18nLoaded || e == I18nLoaded)
  {
    match e
    case DomContentLoaded => flags.(domContentLoaded := true)
    case I18nLoaded => flags.(i18nLoaded := true)
  }

  /** launchApp<id>: the guard on both flags. */
  predicate Ready(flags: Flags)
  {
    flags.domContentLoaded && flags.i18nLoaded
  }

  /** The viewers that one event starts, in listener order: every registered
      viewer when the flags are both set after the event, none otherwise. */
  function Launched(flags: Flags, viewers: seq<PhpString>): (started: seq<PhpString>)
    ensures started == [] || started == viewers
    ensures started == viewers <==> Ready(flags) || viewers == []
  {
    if Ready(flags) then viewers else []
  }

  /** The flags after a run of events. */
  function FlagsAfter(flags: Flags, events: seq<PageEvent>): Flags
    decreases |events|
  {
    if events == [] then flags else FlagsAfter(Apply(flags, events[0]), events[1..])
  }

  /** The viewers started, in order, over a run of events. */
  function Replay(flags: Flags, events: seq<PageEvent>, viewers: seq<PhpString>): seq<PhpString>
    decreases |events|
  {
    if events == [] then []
    else
      var next := Apply(flags, events[0]);
      Launched(next, viewers) + Replay(next, events[1..], viewers)
  }

  /** The number of events after which the guard holds. */
  function Launches(flags: Flags, events: seq<PageEvent>): nat
    decreases |events|
  {
    if events == [] then 0
    else
      var next := Apply(flags, events[0]);
      (if Ready(next) then 1 else 0) + Launches(next, events[1..])
  }

  /** n copies of the viewer list, one after another. */
  function Repeat(viewers: seq<PhpString>, n: nat): (r: seq<PhpString>)
    ensures |r| == n * |viewers|
  {
    if n == 0 then [] else viewers + Repeat(viewers, n - 1)
  }

  /** Every launch starts every registered viewer, in registration order:
      a run of events starts the viewer list once per event after which both
      flags are set. */
  lemma {:induction false} ReplayRepeats(flags: Flags, events: seq<PageEvent>, viewers: seq<PhpString>)
    ensures Replay(flags, events, viewers) == Repeat(viewers, Launches(flags, events))
    decreases |events|
  {
    if events != [] {
      var next := Apply(flags, events[0]);
      ReplayRepeats(next, events[1..], viewers);
    }
  }

  /** One more event appends what Page.Dispatch starts for it: dispatching a
      run of events one at a time builds up exactly Replay. */
  lemma {:induction false} ReplaySnoc(flags: Flags, events: seq<PageEvent>, e: PageEvent, viewers: seq<PhpString>)
    ensures FlagsAfter(flags, events + [e]) == Apply(FlagsAfter(flags, events), e)
    ensures Replay(flags, events + [e], viewers)
      == Replay(flags, events, viewers) + Launched(Apply(FlagsAfter(flags, events), e), viewers)
    decreases |events|
  {
    if events == [] {
      assert [e][1..] == [];
    } else {
      var next := Apply(flags, events[0]);
      assert (events + [e])[1..] == events[1..] + [e];
      ReplaySnoc(next, events[1..], e, viewers);
    }
  }

  /** The flags only ever go from false to true. */
  lemma {:induction false} FlagsAfterMonotone(flags: Flags, events: seq<PageEvent>)
    ensures FlagsAfter(flags, events).domContentLoaded == (flags.domContentLoaded || DomContentLoaded in events)
    ensures FlagsAfter(flags, events).i18nLoaded == (flags.i18nLoaded || I18nLoaded in events)
    decreases |events|
  {
    if events != [] {
      FlagsAfterMonotone(Apply(flags, events[0]), events[1..]);
      assert events == [events[0]] + events[1..];
    }
  }

  /** Some viewer starts exactly when there is a viewer, at least one event,
      and each flag was already set or has its event in the run: the guard
      waits for both, in either order. */
  lemma {:induction false} SomeLaunchIff(flags: Flags, events: seq<PageEvent>)
    ensures Launches(flags, events) > 0 <==> events != [] && Ready(FlagsAfter(flags, events))
    decreases |events|
  {
    if events != [] {
      var next := Apply(flags, events[0]);
      SomeLaunchIff(next, events[1..]);
      if Ready(next) {
        ReadyStays(next, events[1..]);
      }
    }
  }

  /** Once both flags are set they stay set. */
  lemma {:induction false} ReadyStays(flags: Flags, events: seq<PageEvent>)
    requires Ready(flags)
    ensures Ready(FlagsAfter(flags, events))
    decreases |events|
  {
    if events != [] {
      ReadyStays(Apply(flags, events[0]), events[1..]);
    }
  }

  /** From a fresh page, no viewer starts unless both events have occurred. */
  lemma NoStartWithoutBothEvents(events: seq<PageEvent>, viewers: seq<PhpString>)
    ensures Replay(InitialFlags, events, viewers) != [] <==>
      viewers != [] && DomContentLoaded in events && I18nLoaded in events
  {
    ReplayRepeats(InitialFlags, events, viewers);
    SomeLaunchIff(InitialFlags, events);
    FlagsAfterMonotone(InitialFlags, events);
    var n := Launches(InitialFlags, events);
    assert |Repeat(viewers, n)| == n * |viewers|;
    if n > 0 && viewers != [] {
      assert n * |viewers| >= |viewers|;
    }
  }

  /** One more event adds one launch exactly when the guard holds after it. */
  lemma {:induction false} LaunchesSnoc(flags: Flags, events: seq<PageEvent>, e: PageEvent)
    ensures FlagsAfter(flags, events + [e]) == Apply(FlagsAfter(flags, events), e)
    ensures Launches(flags, events + [e])
      == Launches(flags, events) + (if Ready(Apply(FlagsAfter(flags, events), e)) then 1 else 0)
    decreases |events|
  {
    if events == [] {
      assert [e][1..] == [];
    } else {
      var next := Apply(flags, events[0]);
      assert (events + [e])[1..] == events[1..] + [e];
      LaunchesSnoc(next, events[1..], e);
    }
  }

  /** From a fresh page, a non-empty run of events launches exactly once iff
      its last event is the one that completes the pair: no signal may arrive
      after both flags are set. */
  lemma ExactlyOnceIff(events: seq<PageEvent>, e: PageEvent)
    ensures Launches(InitialFlags, events + [e]) == 1 <==>
      !Ready(FlagsAfter(InitialFlags, events)) && Ready(FlagsAfter(InitialFlags, events + [e]))
  {
    LaunchesSnoc(InitialFlags, events, e);
    SomeLaunchIff(InitialFlags, events);
  }

  /** Both events once each, in either order, start every viewer once. */
  lemma EachOrderStartsOnce(viewers: seq<PhpString>)
    ensures Replay(InitialFlags, [DomContentLoaded, I18nLoaded], viewers) == viewers
    ensures Replay(InitialFlags, [I18nLoaded, DomContentLoaded], viewers) == viewers
  {
    var domFirst := [DomContentLoaded, I18nLoaded];
    var i18nFirst := [I18nLoaded, DomContentLoaded];
    assert domFirst[1..] == [I18nLoaded] && domFirst[1..][1..] == [];
    assert i18nFirst[1..] == [DomContentLoaded] && i18nFirst[1..][1..] == [];
    assert viewers + [] == viewers;
  }

  /** A repeated DOMContentLoaded before the i18n callback starts nothing extra:
      only the event that completes the pair launches. */
  lemma RepeatedDomBeforeI18nStartsOnce(viewers: seq<PhpString>)
    ensures Replay(InitialFlags, [DomContentLoaded, DomContentLoaded, I18nLoaded], viewers) == viewers
  {
    var events := [DomContentLoaded, DomContentLoaded, I18nLoaded];
    assert events[1..] == [DomContentLoaded, I18nLoaded];
    assert events[1..][1..] == [I18nLoaded] && events[1..][1..][1..] == [];
    assert [] + ([] + (viewers + [])) == viewers;
  }

  /** The guard does not remember that a viewer already started: a second i18n
      "loaded" callback after both flags are set starts every viewer again. */
  lemma RepeatedI18nStartsAgain(viewers: seq<PhpString>)
    ensures Replay(InitialFlags, [DomContentLoaded, I18nLoaded, I18nLoaded], viewers) == viewers + viewers
  {
    var events := [DomContentLoaded, I18nLoaded, I18nLoaded];
    assert events[1..] == [I18nLoaded, I18nLoaded];
    assert events[1..][1..] == [I18nLoaded] && events[1..][1..][1..] == [];
    assert viewers + (viewers + []) == viewers + viewers;
  }

  /** The page: the two global flags, the viewers whose listeners are
      registered (in registration order), and the viewers started so far. */
  class Page {
    var domContentLoaded: bool
    var i18nLoaded: bool
    var viewers: seq<PhpString>
    var started: seq<PhpString>

    function CurrentFlags(): Flags
      reads this
    {
      Flags(domContentLoaded, i18nLoaded)
    }

    /** The wpinit inline script of wp_enqueue_scripts: both flags false. */
    constructor ()
      ensures CurrentFlags() == InitialFlags
      ensures viewers == [] && started == []
    {
      domContentLoaded := false;
      i18nLoaded := false;
      viewers := [];
      started := [];
    }

    /** The inline script of one create_dwv_html call registers its two
        listeners. */
    method AddViewer(id: PhpString)
      modifies this
      ensures viewers == old(viewers) + [id]
      ensures CurrentFlags() == old(CurrentFlags()) && started == old(started)
    {
      viewers := viewers + [id];
    }

    /** The browser fires one event: every viewer's listener for it runs in
        registration order, sets the flag and calls that viewer's launch. With
        no viewer registered no listener runs and the flag stays as it was. */
    method Dispatch(e: PageEvent)
      modifies this
      ensures CurrentFlags() == if old(viewers) == [] then old(CurrentFlags()) else Apply(old(CurrentFlags()), e)
      ensures viewers == old(viewers)
      ensures started == old(started) + Launched(Apply(old(CurrentFlags()), e), viewers)
    {
      var i := 0;
      while i < |viewers|
        invariant 0 <= i <= |viewers|
        invariant viewers == old(viewers)
        invariant CurrentFlags() == if i == 0 then old(CurrentFlags()) else Apply(old(CurrentFlags()), e)
        invariant started == old(started) + Launched(Apply(old(CurrentFlags()), e), viewers[..i])
      {
        match e {
          case DomContentLoaded => domContentLoaded := true;
          case I18nLoaded => i18nLoaded := true;
        }
        assert viewers[..i + 1] == viewers[..i] + [viewers[i]];
        if domContentLoaded && i18nLoaded {
          started := started + [viewers[i]];
        }
        i := i + 1;
      }
      assert viewers[..i] == viewers;
    }
  }

  /** A page whose inline scripts register the viewers `ids` and which then
      receives `events` one at a time: the viewers it starts, in order, are
      exactly what Replay gives, so the lemmas about Replay hold of Page. */
  method LoadPage(ids: seq<PhpString>, events: seq<PageEvent>) returns (started: seq<PhpString>)
    ensures started == Replay(InitialFlags, events, ids)
  {
    var page := new Page();
    var k := 0;
    while k < |ids|
      invariant 0 <= k <= |ids|
      invariant page.viewers == ids[..k]
      invariant page.CurrentFlags() == InitialFlags && page.started == []
    {
      assert ids[..k + 1] == ids[..k] + [ids[k]];
      page.AddViewer(ids[k]);
      k := k + 1;
    }
    assert ids[..k] == ids;
    k := 0;
    while k < |events|
      invariant 0 <= k <= |events|
      invariant page.viewers == ids
      invariant ids != [] ==> page.CurrentFlags() == FlagsAfter(InitialFlags, events[..k])
      invariant page.started == Replay(InitialFlags, events[..k], ids)
    {
      ReplaySnoc(InitialFlags, events[..k], events[k], ids);
      assert events[..k + 1] == events[..k] + [events[k]];
      page.Dispatch(events[k]);
      k := k + 1;
    }
    assert events[..k] == events;
    started := page.started;
  }
}
