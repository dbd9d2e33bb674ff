/** The footer's hidden admin shortcut (src/page/_components/footer/Footer.jsx):
    three clicks, each within two seconds of the one before, open the admin
    page. */
module Footer {

  const ClicksToOpen: nat := 3

  /** The click counter and whether the two-second reset timer is pending. */
  class SecretClicks {
    var count: nat
    var timerPending: bool

    /** Between events the counter is below three, and a timer is pending
        exactly when some clicks are counted. */
    ghost predicate Valid()
      reads this
    {
      count < ClicksToOpen && (timerPending <==> count > 0)
    }

    constructor()
      ensures Valid() && count == 0 && !timerPending
    {
      count := 0;
      timerPending := false;
    }

    /** handleSecretClick: count the click and cancel the pending timer; on
        the third click reset the counter and navigate to /admin without a
        new timer; otherwise arm a fresh timer. */
    method Click() returns (navigate: bool)
      requires Valid()
      modifies this
      ensures Valid()
      ensures navigate <==> old(count) + 1 >= ClicksToOpen
      ensures count == if navigate then 0 else old(count) + 1
      ensures timerPending == !navigate
    {
      count := count + 1;
      timerPending := false;
      if count >= ClicksToOpen {
        count := 0;
        navigate := true;
        return;
      }
      timerPending := true;
      navigate := false;
    }

    /** The pending timer fires two seconds after the last click. */
    method TimerFires()
      requires Valid() && timerPending
      modifies this
      ensures Valid() && count == 0 && !timerPending
    {
      count := 0;
      timerPending := false;
    }
  }

  /** From rest, three clicks with no timer firing between them navigate
      exactly on the third, and leave the counter at rest again. */
  method ThreeClicks(clicks: SecretClicks) returns (first: bool, second: bool, third: bool)
    requires clicks.Valid() && clicks.count == 0
    modifies clicks
    ensures !first && !second && third
    ensures clicks.Valid() && clicks.count == 0 && !clicks.timerPending
  {
    first := clicks.Click();
    second := clicks.Click();
    third := clicks.Click();
  }

  /** A timer that fires between clicks starts the count over: two clicks,
      a pause, and two more clicks never navigate. */
  method PauseStartsOver(clicks: SecretClicks) returns (navigated: bool)
    requires clicks.Valid() && clicks.count == 0
    modifies clicks
    ensures !navigated
    ensures clicks.Valid() && clicks.count == 2
  {
    var a := clicks.Click();
    var b := clicks.Click();
    clicks.TimerFires();
    var c := clicks.Click();
    var d := clicks.Click();
    navigated := a || b || c || d;
  }

  /** The events the shortcut sees. */
  datatype Event = Clicked | Expired

  /** The click counter after a run of events from rest; an expiry only
      happens when a timer is pending. */
  function CountAfter(events: seq<Event>): nat
  {
    if events == [] then 0
    else
      var before := CountAfter(events[..|events| - 1]);
      match events[|events| - 1]
      case Clicked => if before + 1 >= ClicksToOpen then 0 else before + 1
      case Expired => 0
  }

  /** Whether the shortcut can see these events: a timer fires only while
      one is pending. */
  predicate Possible(events: seq<Event>)
  {
    forall k :: 0 <= k < |events| && events[k] == Expired ==> CountAfter(events[..k]) > 0
  }

  /** The counter stays below three. */
  lemma {:induction false} CountBelowThree(events: seq<Event>)
    ensures CountAfter(events) < ClicksToOpen
  {
    if events != [] {
      CountBelowThree(events[..|events| - 1]);
    }
  }

  /** Replaying a run of events on the shortcut: the clicks it navigates on
      are those at which the count of earlier clicks stood at two. */
  method Replay(clicks: SecretClicks, events: seq<Event>) returns (navigations: seq<nat>)
    requires clicks.Valid() && clicks.count == 0 && Possible(events)
    modifies clicks
    ensures clicks.Valid() && clicks.count == CountAfter(events)
    ensures forall k :: k in navigations <==>
      0 <= k < |events| && events[k] == Clicked && CountAfter(events[..k]) == ClicksToOpen - 1
  {
    navigations := [];
    for i := 0 to |events|
      invariant clicks.Valid() && clicks.count == CountAfter(events[..i])
      invariant forall k :: k in navigations <==>
        0 <= k < i && events[k] == Clicked && CountAfter(events[..k]) == ClicksToOpen - 1
    {
      assert events[..i + 1][..i] == events[..i];
      if events[i] == Clicked {
        var navigate := clicks.Click();
        if navigate {
          navigations := navigations + [i];
        }
      } else {
        clicks.TimerFires();
      }
    }
    assert events[..|events|] == events;
  }
}
