/**
 * The `useModal` hook: two state cells, `isOpen` and `data`, that `open` and
 * `close` overwrite. Only the state after each transition is modelled, not
 * React's batching of updates or re-rendering.
 */
module UseModal {
  import opened Common

  /** The modal as a state machine: closed, or open with an optional payload. */
  datatype ModalState<T> = Closed | Opened(payload: Option<T>)

  /** The transitions the hook offers. */
  datatype ModalEvent<T> = Open(data: Option<T>) | Close

  /** The state after one transition. */
  function Step<T>(s: ModalState<T>, e: ModalEvent<T>): ModalState<T> {
    match e
    case Open(d) => Opened(d)
    case Close => Closed
  }

  /** The state after a sequence of transitions, applied from first to last. */
  function Run<T>(s: ModalState<T>, events: seq<ModalEvent<T>>): ModalState<T>
    decreases |events|
  {
    if events == [] then s else Run(Step(s, events[0]), events[1..])
  }

  /** The hook keeps no history: after any non-empty sequence of transitions,
      the state is what the last transition alone makes of it. */
  lemma {:induction false} LastEventDecides<T>(s: ModalState<T>, events: seq<ModalEvent<T>>)
    requires events != []
    ensures Run(s, events) == Step(Closed, events[|events| - 1])
    decreases |events|
  {
    if |events| > 1 {
      LastEventDecides(Step(s, events[0]), events[1..]);
    }
  }

  /** Closing twice is closing once, and a second `open` replaces the payload. */
  lemma TransitionLaws<T>(s: ModalState<T>, d1: Option<T>, d2: Option<T>)
    ensures Run(s, [Close, Close]) == Run(s, [Close]) == Closed
    ensures Run(s, [Open(d1), Open(d2)]) == Opened(d2)
    ensures Run(s, [Open(d1), Close]) == Closed
  {
    LastEventDecides(s, [Open(d1), Open(d2)]);
  }

  /** The hook's two state cells. */
  class Modal<T> {
    var isOpen: bool
    var data: Option<T>

    /** Whenever the modal is closed, it holds no payload. */
    ghost predicate Valid()
      reads this
    {
      !isOpen ==> data == None
    }

    /** The state machine the two cells stand for. */
    ghost function State(): ModalState<T>
      reads this
      requires Valid()
    {
      if isOpen then Opened(data) else Closed
    }

    /** `useState(false)` and `useState<T>()`: closed, with no payload. */
    constructor ()
      ensures Valid()
      ensures !isOpen && data == None
      ensures State() == Closed
    {
      isOpen := false;
      data := None;
    }

    /** `open(d)`: store the payload (`undefined` when none is passed), then open. */
    method OpenWith(d: Option<T>)
      modifies this
      ensures Valid()
      ensures isOpen && data == d
      ensures State() == Opened(d)
      ensures old(Valid()) ==> State() == Step(old(State()), Open(d))
    {
      data := d;
      isOpen := true;
    }

    /** `close()`: close, then drop the payload. */
    method Close()
      modifies this
      ensures Valid()
      ensures !isOpen && data == None
      ensures old(Valid()) ==> State() == Step(old(State()), ModalEvent.Close)
    {
      isOpen := false;
      data := None;
    }
  }

  /** A caller's view: opening an open modal replaces its payload, and closing
      is idempotent. */
  method ModalClient(x: int, y: int) returns (payload: Option<int>, openAfterClose: bool)
    ensures payload == Some(y) && !openAfterClose
  {
    var m := new Modal<int>();
    m.OpenWith(Some(x));
    m.OpenWith(Some(y));
    payload := m.data;
    m.Close();
    m.Close();
    assert m.data == None;
    openAfterClose := m.isOpen;
  }
}
