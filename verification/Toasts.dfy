/**
 use-toast.ts: the toast store. `scheduled` holds the timers the runtime still has to fire; `toastTimeouts` is the
 module's own map from ids to them. Events interleave in any order.
 */
module Toasts {
  import opened Wrappers

  const TOAST_LIMIT := 1
  const MAX_SAFE_INTEGER := 9007199254740991

  datatype Toast = Toast(id: string, open: bool, title: string)

  datatype Action =
    | AddToast(toast: Toast)
    | UpdateToast(id: string, newOpen: Option<bool>, newTitle: Option<string>)
    | DismissToast(toastId: Option<string>)
    | RemoveToast(toastId: Option<string>)

  datatype Store = Store(count: nat, toasts: seq<Toast>, toastTimeouts: set<string>, scheduled: multiset<string>)

  /** What callers and the runtime do: show a toast, update it, dismiss one or all, let a timer fire. */
  datatype Event =
    | Show(title: string)
    | Update(id: string, newOpen: Option<bool>, newTitle: Option<string>)
    | Dismiss(toastId: Option<string>)
    | Fire(id: string)

  // ---------- Ids ----------

  /** `count.toString()`. */
  function Decimal(n: nat): (s: string)
    ensures s != ""
  {
    var digit := [('0' as int + n % 10) as char];
    if n < 10 then digit else Decimal(n / 10) + digit
  }

  lemma {:induction false} DecimalIsInjective(a: nat, b: nat)
    requires Decimal(a) == Decimal(b)
    ensures a == b
  {
    var s := Decimal(a);
    assert |Decimal(a)| == if a < 10 then 1 else |Decimal(a / 10)| + 1;
    assert |Decimal(b)| == if b < 10 then 1 else |Decimal(b / 10)| + 1;
    assert s[|s| - 1] == ('0' as int + a % 10) as char == ('0' as int + b % 10) as char;
    if a >= 10 && b >= 10 {
      assert Decimal(a / 10) == s[..|s| - 1] == Decimal(b / 10);
      DecimalIsInjective(a / 10, b / 10);
    }
  }

  function NextCount(count: nat): nat { (count + 1) % MAX_SAFE_INTEGER }

  // ---------- The reducer and its side effect ----------

  function Take(toasts: seq<Toast>, n: nat): seq<Toast> { if |toasts| <= n then toasts else toasts[..n] }

  function MapUpdate(toasts: seq<Toast>, id: string, open: Option<bool>, title: Option<string>): (r: seq<Toast>)
    ensures |r| == |toasts|
  {
    seq(|toasts|, i requires 0 <= i < |toasts| =>
      if toasts[i].id != id then toasts[i]
      else toasts[i].(open := open.GetOr(toasts[i].open), title := title.GetOr(toasts[i].title)))
  }

  function MapClose(toasts: seq<Toast>, id: Option<string>): (r: seq<Toast>)
    ensures |r| == |toasts|
  {
    seq(|toasts|, i requires 0 <= i < |toasts| =>
      if id == Some(toasts[i].id) || id == None then toasts[i].(open := false) else toasts[i])
  }

  function Without(toasts: seq<Toast>, id: string): (r: seq<Toast>)
    ensures forall t :: t in r <==> t in toasts && t.id != id
    ensures |r| <= |toasts|
  {
    if toasts == [] then []
    else if toasts[0].id == id then Without(toasts[1..], id)
    else [toasts[0]] + Without(toasts[1..], id)
  }

  function Reduce(toasts: seq<Toast>, a: Action): seq<Toast> {
    match a
    case AddToast(t) => Take([t] + toasts, TOAST_LIMIT)
    case UpdateToast(id, open, title) => MapUpdate(toasts, id, open, title)
    case DismissToast(id) => MapClose(toasts, id)
    case RemoveToast(None) => []
    case RemoveToast(Some(id)) => Without(toasts, id)
  }

  /** addToRemoveQueue: one timer per id at a time. */
  function Queue(s: Store, id: string): Store {
    if id in s.toastTimeouts then s
    else s.(toastTimeouts := s.toastTimeouts + {id}, scheduled := s.scheduled + multiset{id})
  }

  function QueueAll(s: Store, toasts: seq<Toast>): Store {
    if toasts == [] then s else Queue(QueueAll(s, toasts[..|toasts| - 1]), toasts[|toasts| - 1].id)
  }

  /** An empty id is falsy: such a dismissal queues every toast but closes none. */
  function Dispatched(s: Store, a: Action): Store {
    var queued :=
      if !a.DismissToast? then s
      else if a.toastId.Some? && a.toastId.value != "" then Queue(s, a.toastId.value)
      else QueueAll(s, s.toasts);
    queued.(toasts := Reduce(s.toasts, a))
  }

  function Apply(s: Store, e: Event): Store {
    match e
    case Show(title) =>
      var n := NextCount(s.count);
      Dispatched(s.(count := n), AddToast(Toast(Decimal(n), true, title)))
    case Update(id, open, title) => Dispatched(s, UpdateToast(id, open, title))
    case Dismiss(id) => Dispatched(s, DismissToast(id))
    case Fire(id) =>
      if id !in s.scheduled then s
      else
        Dispatched(s.(scheduled := s.scheduled - multiset{id}, toastTimeouts := s.toastTimeouts - {id}),
          RemoveToast(Some(id)))
  }

  function Exec(s: Store, es: seq<Event>): Store
    decreases |es|
  {
    if es == [] then s else Exec(Apply(s, es[0]), es[1..])
  }

  function Shows(es: seq<Event>): nat {
    if es == [] then 0 else (if es[0].Show? then 1 else 0) + Shows(es[1..])
  }

  function Empty(): Store { Store(0, [], {}, multiset{}) }

  // ---------- Invariants ----------

  /** At most one toast, and exactly one runtime timer for each id the module has queued. */
  ghost predicate Sound(s: Store) {
    && |s.toasts| <= 1
    && s.scheduled == multiset(s.toastTimeouts)
    && s.count < MAX_SAFE_INTEGER
  }

  ghost predicate ClosedHaveTimers(s: Store) { forall t :: t in s.toasts && !t.open ==> t.id in s.toastTimeouts }

  lemma QueueKeepsSound(s: Store, id: string)
    requires s.scheduled == multiset(s.toastTimeouts)
    ensures var s' := Queue(s, id); s'.scheduled == multiset(s'.toastTimeouts) && id in s'.toastTimeouts
    ensures var s' := Queue(s, id);
            && s.toastTimeouts <= s'.toastTimeouts
            && s' == s.(toastTimeouts := s'.toastTimeouts, scheduled := s'.scheduled)
  {
  }

  lemma {:induction false} QueueAllKeepsSound(s: Store, toasts: seq<Toast>)
    requires s.scheduled == multiset(s.toastTimeouts)
    ensures var s' := QueueAll(s, toasts);
            && s'.scheduled == multiset(s'.toastTimeouts) && s.toastTimeouts <= s'.toastTimeouts
            && s' == s.(toastTimeouts := s'.toastTimeouts, scheduled := s'.scheduled)
            && forall t :: t in toasts ==> t.id in s'.toastTimeouts
  {
    if toasts != [] {
      QueueAllKeepsSound(s, toasts[..|toasts| - 1]);
      QueueKeepsSound(QueueAll(s, toasts[..|toasts| - 1]), toasts[|toasts| - 1].id);
    }
  }

  lemma ApplyKeepsSound(s: Store, e: Event)
    requires Sound(s)
    ensures Sound(Apply(s, e))
  {
    match e
    case Show(_) =>
    case Update(_, _, _) =>
    case Dismiss(id) =>
      if id.Some? && id.value != "" { QueueKeepsSound(s, id.value); } else { QueueAllKeepsSound(s, s.toasts); }
    case Fire(id) =>
      if id in s.scheduled { assert multiset(s.toastTimeouts) - multiset{id} == multiset(s.toastTimeouts - {id}); }
  }

  /** Over every interleaving, from the empty store: at most one toast, and at most one pending timer for each id. */
  lemma {:induction false} ExecKeepsSound(s: Store, es: seq<Event>)
    requires Sound(s)
    ensures Sound(Exec(s, es)) && forall id :: Exec(s, es).scheduled[id] <= 1
    decreases |es|
  {
    if es != [] {
      ApplyKeepsSound(s, es[0]);
      ExecKeepsSound(Apply(s, es[0]), es[1..]);
    }
  }

  /** The one thing that leaves a closed toast without a timer: an update that itself closes it. */
  predicate ClosesByUpdate(s: Store, e: Event) {
    && e.Update? && e.newOpen == Some(false) && e.id !in s.toastTimeouts
    && exists t :: t in s.toasts && t.id == e.id
  }

  /** Closed toasts keep having a pending timer across an event if and only if the event is not such an update. */
  lemma ClosedHaveTimersExactly(s: Store, e: Event)
    requires Sound(s) && ClosedHaveTimers(s)
    ensures ClosedHaveTimers(Apply(s, e)) <==> !ClosesByUpdate(s, e)
  {
    var s' := Apply(s, e);
    match e
    case Show(_) =>
    case Update(id, open, title) =>
      forall i | 0 <= i < |s.toasts| ensures s'.toasts[i].id == s.toasts[i].id { }
      if ClosesByUpdate(s, e) {
        var t :| t in s.toasts && t.id == e.id;
        var i :| 0 <= i < |s.toasts| && s.toasts[i] == t;
        assert s'.toasts[i] in s'.toasts && !s'.toasts[i].open;
      }
    case Dismiss(id) =>
      if id.Some? && id.value != "" { QueueKeepsSound(s, id.value); } else { QueueAllKeepsSound(s, s.toasts); }
    case Fire(id) =>
  }

  lemma {:induction false} ExecKeepsClosedHaveTimers(s: Store, es: seq<Event>)
    requires Sound(s) && ClosedHaveTimers(s)
    requires forall e :: e in es ==> !(e.Update? && e.newOpen == Some(false))
    ensures ClosedHaveTimers(Exec(s, es))
    decreases |es|
  {
    if es != [] {
      assert es[0] in es;
      ApplyKeepsSound(s, es[0]);
      ClosedHaveTimersExactly(s, es[0]);
      ExecKeepsClosedHaveTimers(Apply(s, es[0]), es[1..]);
    }
  }

  /** An event after which a closed toast that had no timer is gone, open again, or queued. */
  predicate Mends(s: Store, e: Event) {
    match e
    case Show(_) => true
    case Update(id, open, _) => open == Some(true) && exists t :: t in s.toasts && t.id == id
    case Dismiss(None) => true
    case Dismiss(Some(id)) => id == "" || exists t :: t in s.toasts && t.id == id
    case Fire(_) => false
  }

  lemma UpdatedToasts(s: Store, e: Event)
    requires Sound(s) && e.Update?
    ensures var s' := Apply(s, e);
            && s'.toastTimeouts == s.toastTimeouts && |s'.toasts| == |s.toasts|
            && forall i :: 0 <= i < |s.toasts| ==>
                 && s'.toasts[i].id == s.toasts[i].id
                 && s'.toasts[i].open ==
                    if s.toasts[i].id == e.id then e.newOpen.GetOr(s.toasts[i].open) else s.toasts[i].open
  {
  }

  /** A store whose one toast is closed and has no timer. */
  lemma BareToast(s: Store) returns (t: Toast)
    requires Sound(s) && !ClosedHaveTimers(s)
    ensures s.toasts == [t] && !t.open && t.id !in s.toastTimeouts
  {
    t :| t in s.toasts && !t.open && t.id !in s.toastTimeouts;
  }

  /** From any state: whether closed toasts have their timers after an event. */
  lemma TimersAfterExactly(s: Store, e: Event)
    requires Sound(s)
    ensures ClosedHaveTimers(Apply(s, e)) <==> !ClosesByUpdate(s, e) && (ClosedHaveTimers(s) || Mends(s, e))
  {
    if ClosedHaveTimers(s) {
      ClosedHaveTimersExactly(s, e);
    } else {
      var t := BareToast(s);
      var s' := Apply(s, e);
      assert t in s.toasts;
      match e
      case Show(_) =>
      case Update(id, _, _) =>
        UpdatedToasts(s, e);
        assert s'.toasts[0] in s'.toasts;
      case Dismiss(id) =>
        if id.Some? && id.value != "" { QueueKeepsSound(s, id.value); } else { QueueAllKeepsSound(s, s.toasts); }
        assert s'.toasts[0] in s'.toasts;
      case Fire(id) =>
        assert t in s'.toasts;
    }
  }

  /** Whether closed toasts have their timers after a run, told from its events: lost by an update, then mended. */
  predicate TimersKept(s: Store, kept: bool, es: seq<Event>)
    decreases |es|
  {
    if es == [] then kept
    else TimersKept(Apply(s, es[0]), !ClosesByUpdate(s, es[0]) && (kept || Mends(s, es[0])), es[1..])
  }

  lemma {:induction false} TimersKeptExactly(s: Store, es: seq<Event>)
    requires Sound(s)
    ensures ClosedHaveTimers(Exec(s, es)) <==> TimersKept(s, ClosedHaveTimers(s), es)
    decreases |es|
  {
    if es != [] {
      ApplyKeepsSound(s, es[0]);
      TimersAfterExactly(s, es[0]);
      TimersKeptExactly(Apply(s, es[0]), es[1..]);
    }
  }

  lemma ExecTwo(s: Store, a: Event, b: Event)
    ensures Exec(s, [a, b]) == Apply(Apply(s, a), b)
  {
    assert [a, b][1..] == [b] && [b][1..] == [];
    assert Exec(Apply(s, a), [b]) == Exec(Apply(Apply(s, a), b), []);
  }

  /** From the empty store: show a toast and close it by an update, and it stays closed without a timer. */
  lemma ClosedToastCanLackTimer()
    ensures !ClosedHaveTimers(Exec(Empty(), [Show("")] + [Update(Decimal(1), Some(false), None)]))
  {
    var show, close := Show(""), Update(Decimal(1), Some(false), None);
    ExecTwo(Empty(), show, close);
    var s := Apply(Empty(), show);
    assert s.toasts == [Toast(Decimal(1), true, "")];
    UpdatedToasts(s, close);
    assert Apply(s, close).toasts[0] in Apply(s, close).toasts;
  }

  // ---------- When a fired id comes back ----------

  /** The id is one that the counter will still hand out before it wraps around. */
  ghost predicate Upcoming(id: string, count: nat) { exists k :: count < k < MAX_SAFE_INTEGER && id == Decimal(k) }

  ghost predicate HasToast(s: Store, id: string) { exists t :: t in s.toasts && t.id == id }

  /** An id that has been handed out is not handed out again before the counter wraps around. */
  lemma IssuedIsNotUpcoming(k: nat, count: nat)
    requires k <= count
    ensures !Upcoming(Decimal(k), count)
  {
    forall j | count < j < MAX_SAFE_INTEGER ensures Decimal(j) != Decimal(k) {
      if Decimal(j) == Decimal(k) { DecimalIsInjective(j, k); }
    }
  }

  lemma IdsOfDispatched(s: Store, a: Action)
    requires Sound(s) && !a.AddToast?
    ensures Dispatched(s, a).count == s.count
    ensures forall t :: t in Dispatched(s, a).toasts ==> exists u :: u in s.toasts && u.id == t.id
  {
    var s' := Dispatched(s, a);
    QueueAllKeepsSound(s, s.toasts);
    forall t | t in s'.toasts ensures exists u :: u in s.toasts && u.id == t.id {
      if a.UpdateToast? || a.DismissToast? {
        var i :| 0 <= i < |s'.toasts| && s'.toasts[i] == t;
        assert s.toasts[i] in s.toasts && s.toasts[i].id == t.id;
      } else {
        assert t in s.toasts;
      }
    }
  }

  lemma ApplyKeepsGone(s: Store, e: Event, id: string)
    requires Sound(s) && !HasToast(s, id) && !Upcoming(id, s.count) && (e.Show? ==> s.count + 1 < MAX_SAFE_INTEGER)
    ensures var s' := Apply(s, e);
            !HasToast(s', id) && !Upcoming(id, s'.count) && s'.count == s.count + (if e.Show? then 1 else 0)
  {
    match e
    case Show(title) =>
    case Update(i, o, t) => IdsOfDispatched(s, UpdateToast(i, o, t));
    case Dismiss(i) => IdsOfDispatched(s, DismissToast(i));
    case Fire(i) =>
  }

  lemma {:induction false} ExecKeepsGone(s: Store, es: seq<Event>, id: string)
    requires Sound(s) && !HasToast(s, id) && !Upcoming(id, s.count) && s.count + Shows(es) < MAX_SAFE_INTEGER
    ensures !HasToast(Exec(s, es), id)
    decreases |es|
  {
    if es != [] {
      ApplyKeepsSound(s, es[0]);
      ApplyKeepsGone(s, es[0], id);
      ExecKeepsGone(Apply(s, es[0]), es[1..], id);
    }
  }

  function ShowTimes(n: nat): (es: seq<Event>)
    ensures Shows(es) == n
  {
    if n == 0 then [] else [Show("")] + ShowTimes(n - 1)
  }

  lemma ShowAdds(s: Store)
    requires s.count + 1 < MAX_SAFE_INTEGER
    ensures var s1 := Apply(s, Show("")); s1.count == s.count + 1 && HasToast(s1, Decimal(s.count + 1))
  {
    assert Apply(s, Show("")).toasts[0].id == Decimal(s.count + 1);
  }

  lemma {:induction false} ShowingReaches(s: Store, k: nat)
    requires s.count < k < MAX_SAFE_INTEGER
    ensures HasToast(Exec(s, ShowTimes(k - s.count)), Decimal(k))
    decreases k - s.count
  {
    var s1, rest := Apply(s, Show("")), ShowTimes(k - s.count - 1);
    var all := ShowTimes(k - s.count);
    assert all[0] == Show("") && all[1..] == rest;
    assert Exec(s, all) == Exec(s1, rest);
    ShowAdds(s);
    if s1.count < k {
      ShowingReaches(s1, k);
    } else {
      assert rest == [] && Exec(s1, rest) == s1;
    }
  }

  /** Some run within the counter's range puts a toast with this id into the store. */
  ghost predicate CanShow(s: Store, id: string) {
    exists later :: s.count + Shows(later) < MAX_SAFE_INTEGER && HasToast(Exec(s, later), id)
  }

  lemma UpcomingCanShow(s: Store, id: string)
    requires Upcoming(id, s.count)
    ensures CanShow(s, id)
  {
    var k :| s.count < k < MAX_SAFE_INTEGER && id == Decimal(k);
    var later := ShowTimes(k - s.count);
    ShowingReaches(s, k);
    assert s.count + Shows(later) < MAX_SAFE_INTEGER;
  }

  /**
   After the timer of an id has fired, a toast with that id can be in the store again, within the counter's range,
   if and only if the id is still to be handed out: that takes a caller who dismissed it before any toast had it.
   */
  lemma FiredIdReturnsExactly(s: Store, id: string)
    requires Sound(s) && id in s.scheduled
    ensures CanShow(Apply(s, Fire(id)), id) <==> Upcoming(id, s.count)
  {
    var s' := Apply(s, Fire(id));
    ApplyKeepsSound(s, Fire(id));
    assert s'.count == s.count && !HasToast(s', id);
    if Upcoming(id, s.count) {
      UpcomingCanShow(s', id);
    } else {
      forall later | s'.count + Shows(later) < MAX_SAFE_INTEGER ensures !HasToast(Exec(s', later), id) {
        ExecKeepsGone(s', later, id);
      }
    }
  }

  /** From the empty store: dismiss the first id before it is handed out, let its timer fire, and then show a toast. */
  lemma FiredIdCanReturn()
    ensures !HasToast(Exec(Empty(), [Dismiss(Some(Decimal(1)))] + [Fire(Decimal(1))]), Decimal(1))
    ensures HasToast(Exec(Empty(), [Dismiss(Some(Decimal(1)))] + [Fire(Decimal(1))] + [Show("")]), Decimal(1))
  {
    var dismiss, fire, show := Dismiss(Some(Decimal(1))), Fire(Decimal(1)), Show("");
    ExecTwo(Empty(), dismiss, fire);
    var queued := Apply(Empty(), dismiss);
    assert queued.toasts == [] && Decimal(1) in queued.scheduled;
    var fired := Apply(queued, fire);
    assert fired.toasts == [] && fired.count == 0;
    assert [dismiss] + [fire] + [show] == [dismiss] + [fire, show];
    assert Exec(Empty(), [dismiss] + [fire, show]) == Exec(queued, [fire, show]) by {
      assert ([dismiss] + [fire, show])[1..] == [fire, show];
    }
    ExecTwo(queued, fire, show);
    assert Apply(fired, show).toasts[0] in Apply(fired, show).toasts;
  }

  // ---------- What callers see ----------

  lemma TakeFirst(t: Toast, toasts: seq<Toast>)
    ensures Take([t] + toasts, TOAST_LIMIT) == [t]
  {
  }

  lemma ShowsOne(s: Store, title: string, n: nat)
    requires n == NextCount(s.count)
    ensures Apply(s, Show(title)) == s.(count := n, toasts := [Toast(Decimal(n), true, title)])
  {
    TakeFirst(Toast(Decimal(n), true, title), s.toasts);
  }

  /** The counter goes up by one and starts again at 0 when it reaches 2^53 - 1. */
  lemma CountsUp(count: nat)
    ensures count + 1 < 9007199254740991 ==> NextCount(count) == count + 1
    ensures count + 1 == 9007199254740991 ==> NextCount(count) == 0
  {
  }

  /** Showing leaves one toast in the store: a new one, open, with this title; nothing else changes but the counter. */
  lemma ShownToast(s: Store, title: string) returns (n: nat)
    ensures Exec(s, [Show(title)]) == s.(count := n, toasts := [Toast(Decimal(n), true, title)])
    ensures s.count + 1 < 9007199254740991 ==> n == s.count + 1
  {
    n := NextCount(s.count);
    CountsUp(s.count);
    ExecSingle(s, Show(title));
    ShowsOne(s, title, n);
  }

  lemma ExecSingle(s: Store, e: Event)
    ensures Exec(s, [e]) == Apply(s, e)
  {
    assert [e][1..] == [];
    assert Exec(Apply(s, e), []) == Apply(s, e);
  }

  /** Dismissing one id closes every toast with that id and changes no other; dismissing all leaves none open. */
  lemma DismissedToasts(s: Store, id: Option<string>)
    requires Sound(s)
    ensures var s' := Exec(s, [Dismiss(id)]);
            && |s'.toasts| == |s.toasts| && s'.count == s.count
            && forall i :: 0 <= i < |s.toasts| ==>
                 if id.None? || s.toasts[i].id == id.value
                 then s'.toasts[i] == Toast(s.toasts[i].id, false, s.toasts[i].title)
                 else s'.toasts[i] == s.toasts[i]
    ensures var s' := Exec(s, [Dismiss(id)]);
            s'.toastTimeouts == s.toastTimeouts
              + if id.Some? && id.value != "" then {id.value} else set t | t in s.toasts :: t.id
  {
    var s' := Apply(s, Dismiss(id));
    ExecSingle(s, Dismiss(id));
    QueueAllKeepsSound(s, s.toasts);
    QueuedExactly(s, s.toasts);
  }

  lemma {:induction false} QueuedExactly(s: Store, toasts: seq<Toast>)
    ensures QueueAll(s, toasts).toastTimeouts == s.toastTimeouts + set t | t in toasts :: t.id
  {
    if toasts != [] {
      var n := |toasts| - 1;
      QueuedExactly(s, toasts[..n]);
      assert forall t :: t in toasts <==> t in toasts[..n] || t == toasts[n];
    }
  }

  /** An update changes the open flag and the title it names, on the toast with its id, and nothing else. */
  lemma UpdatedToast(s: Store, id: string, open: Option<bool>, title: Option<string>)
    ensures var s' := Exec(s, [Update(id, open, title)]);
            && s' == s.(toasts := s'.toasts) && |s'.toasts| == |s.toasts|
            && forall i :: 0 <= i < |s.toasts| ==>
                 && s'.toasts[i].id == s.toasts[i].id
                 && (s.toasts[i].id != id ==> s'.toasts[i] == s.toasts[i])
                 && (s.toasts[i].id == id ==>
                       && s'.toasts[i].open == (match open case Some(o) => o case None => s.toasts[i].open)
                       && s'.toasts[i].title == (match title case Some(x) => x case None => s.toasts[i].title))
  {
    ExecSingle(s, Update(id, open, title));
  }

  /** A timer that fires takes its own toast out of the store, forgets itself, and leaves every other toast. */
  lemma FiredTimer(s: Store, id: string)
    requires Sound(s)
    ensures var s' := Exec(s, [Fire(id)]);
            if id in s.toastTimeouts then
              && s'.toastTimeouts == s.toastTimeouts - {id} && s'.count == s.count
              && forall t :: t in s'.toasts <==> t in s.toasts && t.id != id
            else s' == s
  {
    ExecSingle(s, Fire(id));
  }

  /** The event may open a toast. */
  predicate Opens(e: Event) { e.Show? || (e.Update? && e.newOpen == Some(true)) }

  lemma ApplyKeepsClosed(s: Store, e: Event)
    requires Sound(s) && !Opens(e) && forall t :: t in s.toasts ==> !t.open
    ensures forall t :: t in Apply(s, e).toasts ==> !t.open
  {
    QueueAllKeepsSound(s, s.toasts);
  }

  /** A store without an open toast stays so over every run that neither shows a toast nor opens one by an update. */
  lemma {:induction false} ClosedStaysClosed(s: Store, es: seq<Event>)
    requires Sound(s) && (forall t :: t in s.toasts ==> !t.open) && forall e :: e in es ==> !Opens(e)
    ensures forall t :: t in Exec(s, es).toasts ==> !t.open
    decreases |es|
  {
    if es != [] {
      assert es[0] in es;
      ApplyKeepsSound(s, es[0]);
      ApplyKeepsClosed(s, es[0]);
      ClosedStaysClosed(Apply(s, es[0]), es[1..]);
    }
  }

  // ---------- The module ----------

  class ToastStore {
    var count: nat
    var toastTimeouts: set<string>
    var scheduled: multiset<string>
    var memoryState: seq<Toast>

    constructor ()
      ensures Snapshot() == Empty()
    {
      count, toastTimeouts, scheduled, memoryState := 0, {}, multiset{}, [];
    }

    function Snapshot(): Store reads this { Store(count, memoryState, toastTimeouts, scheduled) }

    method GenId() returns (id: string)
      modifies this`count
      ensures count == NextCount(old(count)) && id == Decimal(count)
    {
      count := (count + 1) % MAX_SAFE_INTEGER;
      id := Decimal(count);
    }

    method AddToRemoveQueue(toastId: string)
      modifies this`toastTimeouts, this`scheduled
      ensures Snapshot() == Queue(old(Snapshot()), toastId)
    {
      if toastId in toastTimeouts { return; }
      scheduled := scheduled + multiset{toastId};
      toastTimeouts := toastTimeouts + {toastId};
    }

    method AddAllToRemoveQueue()
      modifies this`toastTimeouts, this`scheduled
      ensures Snapshot() == QueueAll(old(Snapshot()), memoryState)
    {
      for i := 0 to |memoryState|
        invariant Snapshot() == QueueAll(old(Snapshot()), memoryState[..i])
      {
        assert memoryState[..i + 1][..i] == memoryState[..i];
        AddToRemoveQueue(memoryState[i].id);
      }
      assert memoryState[..|memoryState|] == memoryState;
    }

    method Dispatch(a: Action)
      modifies this`toastTimeouts, this`scheduled, this`memoryState
      ensures Snapshot() == Dispatched(old(Snapshot()), a)
    {
      if a.DismissToast? {
        if a.toastId.Some? && a.toastId.value != "" {
          AddToRemoveQueue(a.toastId.value);
        } else {
          AddAllToRemoveQueue();
        }
      }
      memoryState := Reduce(memoryState, a);
    }

    method ShowToast(title: string) returns (id: string)
      modifies this
      ensures Snapshot() == Apply(old(Snapshot()), Show(title)) && id == Decimal(count)
      ensures old(Sound(Snapshot())) ==> Sound(Snapshot())
    {
      ghost var before := Snapshot();
      if Sound(before) { ApplyKeepsSound(before, Show(title)); }
      id := GenId();
      Dispatch(AddToast(Toast(id, true, title)));
    }

    method UpdateShown(id: string, open: Option<bool>, title: Option<string>)
      modifies this`toastTimeouts, this`scheduled, this`memoryState
      ensures Snapshot() == Apply(old(Snapshot()), Update(id, open, title))
      ensures old(Sound(Snapshot())) ==> Sound(Snapshot())
    {
      ghost var before := Snapshot();
      if Sound(before) { ApplyKeepsSound(before, Update(id, open, title)); }
      Dispatch(UpdateToast(id, open, title));
    }

    method DismissShown(toastId: Option<string>)
      modifies this`toastTimeouts, this`scheduled, this`memoryState
      ensures Snapshot() == Apply(old(Snapshot()), Dismiss(toastId))
      ensures old(Sound(Snapshot())) ==> Sound(Snapshot())
    {
      ghost var before := Snapshot();
      if Sound(before) { ApplyKeepsSound(before, Dismiss(toastId)); }
      Dispatch(DismissToast(toastId));
    }

    method FireTimer(id: string)
      requires id in scheduled
      modifies this`toastTimeouts, this`scheduled, this`memoryState
      ensures Snapshot() == Apply(old(Snapshot()), Fire(id))
      ensures old(Sound(Snapshot())) ==> Sound(Snapshot())
    {
      ghost var before := Snapshot();
      if Sound(before) { ApplyKeepsSound(before, Fire(id)); }
      scheduled := scheduled - multiset{id};
      toastTimeouts := toastTimeouts - {id};
      Dispatch(RemoveToast(Some(id)));
    }
  }
}
