/** Event kinds, the subscription bitmask of a client, and what the SUBSCRIBE and
    UNSUBSCRIBE requests do to it. */
module Subscriptions {
  import opened Helpers
  import opened Wire

  datatype EventKind = Workspace | Output | Mode | Window | Binding | Shutdown | Tick | Input

  /** The kinds a SUBSCRIBE request can name. */
  const SUBSCRIBABLE: set<EventKind> := {Workspace, Output, Window, Shutdown, Tick, Input}

  /** The 32-bit type code of an event; it is also the payload type of its frame. */
  function Code(k: EventKind): bv32 {
    match k
    case Workspace => 0x8000_0000
    case Output => 0x8000_0001
    case Mode => 0x8000_0002
    case Window => 0x8000_0003
    case Binding => 0x8000_0005
    case Shutdown => 0x8000_0006
    case Tick => 0x8000_0007
    case Input => 0x8000_0015
  }

  /** The payload type written into the header of an event frame. */
  function FrameKind(k: EventKind): U32 {
    match k
    case Workspace => 0x8000_0000
    case Output => 0x8000_0001
    case Mode => 0x8000_0002
    case Window => 0x8000_0003
    case Binding => 0x8000_0005
    case Shutdown => 0x8000_0006
    case Tick => 0x8000_0007
    case Input => 0x8000_0015
  }

  /** The subscribed_events field. The source keeps a long, but no event's bit lies
      above bit 7 (EventMaskIsTheMacro), so its low byte is all there is. */
  type Mask = bv8

  const NO_EVENTS: Mask := 0

  /** The bit of an event kind, as a table; EventMaskIsTheMacro ties it to the
      expression in the source. */
  function EventMask(k: EventKind): Mask {
    match k
    case Workspace => 0x01
    case Output => 0x02
    case Mode => 0x04
    case Window => 0x08
    case Binding => 0x20
    case Shutdown => 0x40
    case Tick => 0x80
    case Input => 0x20
  }

  /** The mask with the bit of an event kind. */
  function WithBit(mask: Mask, k: EventKind): Mask {
    mask | EventMask(k)
  }

  /** The event_mask macro shifts by the low bits of the type code. */
  lemma EventMaskIsTheMacro(k: EventKind)
    ensures EventMask(k) as bv64 == (1 as bv64) << (Code(k) & 0x8F)
    ensures FrameKind(k) == Code(k) as int
  {
  }

  predicate Selects(mask: Mask, k: EventKind) {
    mask & EventMask(k) != 0
  }

  /** The set of event kinds that a mask stands for. */
  function KindsOf(mask: Mask): set<EventKind> {
    set k | k in SUBSCRIBABLE && Selects(mask, k)
  }

  /** A mask that only subscriptions have written: no bit outside the six kinds'. */
  predicate OnlySubscribable(mask: Mask) {
    mask & 0x14 == 0
  }

  /** No two subscribable kinds share a bit, so a mask is one set of kinds and
      distinct reachable masks are distinct sets. */
  lemma MaskIsASetOfKinds(m1: Mask, m2: Mask)
    requires OnlySubscribable(m1) && OnlySubscribable(m2)
    ensures m1 == m2 <==> KindsOf(m1) == KindsOf(m2)
  {
    if KindsOf(m1) == KindsOf(m2) {
      forall k | k in SUBSCRIBABLE
        ensures Selects(m1, k) == Selects(m2, k)
      {
        assert k in KindsOf(m1) <==> k in KindsOf(m2);
      }
      assert Selects(m1, Workspace) == Selects(m2, Workspace);
      assert Selects(m1, Output) == Selects(m2, Output);
      assert Selects(m1, Window) == Selects(m2, Window);
      assert Selects(m1, Shutdown) == Selects(m2, Shutdown);
      assert Selects(m1, Tick) == Selects(m2, Tick);
      assert Selects(m1, Input) == Selects(m2, Input);
    }
  }

  lemma DistinctBits(j: EventKind, k: EventKind)
    requires j in SUBSCRIBABLE
    ensures EventMask(k) & EventMask(j) != 0 <==> EventMask(k) == EventMask(j)
    ensures EventMask(k) == EventMask(j) <==> j == Effective(k)
    ensures EventMask(j) & 0x14 == 0
  {
  }

  /** The subscribable kind that owns the bit of k: binding and input share one. */
  function Effective(k: EventKind): EventKind {
    if k == Binding then Input else k
  }

  lemma SetBit(mask: Mask, bit: Mask, probe: Mask)
    ensures (mask | bit) & probe != 0 <==> mask & probe != 0 || bit & probe != 0
  {
  }

  lemma ClearBit(mask: Mask, bit: Mask, probe: Mask)
    requires bit & probe == 0 || bit == probe
    ensures mask & !bit & probe != 0 <==> mask & probe != 0 && bit != probe
  {
  }

  lemma StayWithin(mask: Mask, bit: Mask)
    requires OnlySubscribable(mask) && OnlySubscribable(bit)
    ensures OnlySubscribable(mask | bit)
  {
  }

  lemma SelectsAfterSet(mask: Mask, k: EventKind, j: EventKind)
    requires j in SUBSCRIBABLE && k in SUBSCRIBABLE
    ensures Selects(WithBit(mask, k), j) <==> Selects(mask, j) || j == k
  {
    DistinctBits(j, k);
    SetBit(mask, EventMask(k), EventMask(j));
  }

  lemma SelectsAfterClear(mask: Mask, k: EventKind, j: EventKind)
    requires j in SUBSCRIBABLE
    ensures Selects(mask & !EventMask(k), j) <==> Selects(mask, j) && j != Effective(k)
  {
    DistinctBits(j, k);
    ClearBit(mask, EventMask(k), EventMask(j));
  }

  lemma ClearStaysWithin(mask: Mask, bit: Mask)
    ensures OnlySubscribable(mask) ==> OnlySubscribable(mask & !bit)
  {
  }

  /** An element of the JSON array in a request: a string, or anything else (which
      both requests skip). */
  datatype Item = Name(text: string) | Other

  /** A parsed request: the JSON parser's answer is an input of the model. */
  datatype Request = NotAnArray | Array(items: seq<Item>)

  /** The names SUBSCRIBE accepts. */
  function SubscribeKind(name: string): Option<EventKind> {
    if name == "workspace" then Some(Workspace)
    else if name == "shutdown" then Some(Shutdown)
    else if name == "window" then Some(Window)
    else if name == "tick" then Some(Tick)
    else if name == "input" then Some(Input)
    else if name == "output" then Some(Output)
    else None
  }

  /** event_to_type: the names UNSUBSCRIBE accepts. */
  function EventToType(name: string): Option<EventKind> {
    if name == "workspace" then Some(Workspace)
    else if name == "output" then Some(Output)
    else if name == "window" then Some(Window)
    else if name == "binding" then Some(Binding)
    else if name == "shutdown" then Some(Shutdown)
    else if name == "tick" then Some(Tick)
    else if name == "input" then Some(Input)
    else None
  }

  /** How a request reads event names. */
  type Reader = string -> Option<EventKind>

  predicate AllKnown(items: seq<Item>, kindOf: Reader) {
    forall i :: 0 <= i < |items| && items[i].Name? ==> kindOf(items[i].text).Some?
  }

  /** The kinds that the items name, in order, up to the first unknown name. */
  function Named(items: seq<Item>, kindOf: Reader): seq<EventKind> {
    if items == [] then []
    else
      var before := items[..|items| - 1];
      var last := items[|items| - 1];
      if AllKnown(before, kindOf) && last.Name? && kindOf(last.text).Some? then
        Named(before, kindOf) + [kindOf(last.text).value]
      else Named(before, kindOf)
  }

  /** The mask after setting, or clearing, the bits of some kinds one after another. */
  function SetAll(mask: Mask, kinds: seq<EventKind>): Mask {
    if kinds == [] then mask else WithBit(SetAll(mask, kinds[..|kinds| - 1]), kinds[|kinds| - 1])
  }

  function ClearAll(mask: Mask, kinds: seq<EventKind>): Mask {
    if kinds == [] then mask else ClearAll(mask, kinds[..|kinds| - 1]) & !EventMask(kinds[|kinds| - 1])
  }

  /** The mask after a SUBSCRIBE: an unknown name anywhere clears it. */
  function SubscribedBy(mask: Mask, items: seq<Item>, kindOf: Reader): Mask {
    if AllKnown(items, kindOf) then SetAll(mask, Named(items, kindOf)) else NO_EVENTS
  }

  function Subscribed(mask: Mask, items: seq<Item>): Mask {
    SubscribedBy(mask, items, SubscribeKind)
  }

  /** The mask after an UNSUBSCRIBE: an unknown name only stops it. */
  function Unsubscribed(mask: Mask, items: seq<Item>): Mask {
    ClearAll(mask, Named(items, EventToType))
  }

  predicate AllSubscribable(kinds: seq<EventKind>) {
    forall k :: k in kinds ==> k in SUBSCRIBABLE
  }

  lemma {:induction false} SetAllSelects(mask: Mask, kinds: seq<EventKind>, j: EventKind)
    requires j in SUBSCRIBABLE && AllSubscribable(kinds)
    ensures Selects(SetAll(mask, kinds), j) <==> Selects(mask, j) || j in kinds
  {
    if kinds != [] {
      var before, last := kinds[..|kinds| - 1], kinds[|kinds| - 1];
      SetAllSelects(mask, before, j);
      SelectsAfterSet(SetAll(mask, before), last, j);
      assert kinds == before + [last];
    }
  }

  lemma {:induction false} SetAllStaysWithin(mask: Mask, kinds: seq<EventKind>)
    requires AllSubscribable(kinds) && OnlySubscribable(mask)
    ensures OnlySubscribable(SetAll(mask, kinds))
  {
    if kinds != [] {
      var before, last := kinds[..|kinds| - 1], kinds[|kinds| - 1];
      SetAllStaysWithin(mask, before);
      DistinctBits(last, last);
      StayWithin(SetAll(mask, before), EventMask(last));
    }
  }

  /** What an UNSUBSCRIBE by name takes away: "binding" shares the bit of "input". */
  function Released(kinds: seq<EventKind>): set<EventKind> {
    set k | k in kinds :: Effective(k)
  }

  lemma ReleasedAppend(before: seq<EventKind>, last: EventKind)
    ensures Released(before + [last]) == Released(before) + {Effective(last)}
  {
  }

  lemma {:induction false} ClearAllSelects(mask: Mask, kinds: seq<EventKind>, j: EventKind)
    requires j in SUBSCRIBABLE
    ensures Selects(ClearAll(mask, kinds), j) <==> Selects(mask, j) && j !in Released(kinds)
  {
    if kinds != [] {
      var before, last := kinds[..|kinds| - 1], kinds[|kinds| - 1];
      ClearAllSelects(mask, before, j);
      SelectsAfterClear(ClearAll(mask, before), last, j);
      assert kinds == before + [last];
      ReleasedAppend(before, last);
    }
  }

  lemma {:induction false} ClearAllStaysWithin(mask: Mask, kinds: seq<EventKind>)
    requires OnlySubscribable(mask)
    ensures OnlySubscribable(ClearAll(mask, kinds))
  {
    if kinds != [] {
      var before, last := kinds[..|kinds| - 1], kinds[|kinds| - 1];
      ClearAllStaysWithin(mask, before);
      ClearStaysWithin(ClearAll(mask, before), EventMask(last));
    }
  }

  lemma {:induction false} NamedBySubscribe(items: seq<Item>)
    ensures AllSubscribable(Named(items, SubscribeKind))
  {
    if items != [] {
      NamedBySubscribe(items[..|items| - 1]);
    }
  }

  lemma NoEvents()
    ensures KindsOf(NO_EVENTS) == {} && OnlySubscribable(NO_EVENTS)
  {
  }

  /** SUBSCRIBE is set union when every name is known, and empties the set otherwise. */
  lemma SubscribeIsUnion(mask: Mask, items: seq<Item>)
    ensures KindsOf(Subscribed(mask, items)) ==
            if AllKnown(items, SubscribeKind)
            then KindsOf(mask) + set k | k in Named(items, SubscribeKind)
            else {}
    ensures OnlySubscribable(mask) ==> OnlySubscribable(Subscribed(mask, items))
  {
    NamedBySubscribe(items);
    var kinds := Named(items, SubscribeKind);
    forall j | j in SUBSCRIBABLE
      ensures j in KindsOf(SetAll(mask, kinds)) <==> j in KindsOf(mask) || j in kinds
    {
      SetAllSelects(mask, kinds, j);
    }
    NoEvents();
    if OnlySubscribable(mask) {
      SetAllStaysWithin(mask, kinds);
    }
  }

  /** UNSUBSCRIBE is set difference with the kinds named before the first unknown
      name, where "binding" stands for "input". */
  lemma UnsubscribeIsDifference(mask: Mask, items: seq<Item>)
    ensures KindsOf(Unsubscribed(mask, items)) ==
            KindsOf(mask) - Released(Named(items, EventToType))
    ensures OnlySubscribable(mask) ==> OnlySubscribable(Unsubscribed(mask, items))
  {
    var kinds := Named(items, EventToType);
    forall j | j in SUBSCRIBABLE
      ensures j in KindsOf(ClearAll(mask, kinds)) <==>
              j in KindsOf(mask) && j !in Released(kinds)
    {
      ClearAllSelects(mask, kinds, j);
    }
    if OnlySubscribable(mask) {
      ClearAllStaysWithin(mask, kinds);
    }
  }

  /** UNSUBSCRIBE takes away exactly the named kinds if and only if it does not name
      "binding" (which cannot be subscribed to) while "input" is subscribed and not
      named itself. */
  lemma UnsubscribeIsExact(mask: Mask, items: seq<Item>)
    ensures var named := set k | k in Named(items, EventToType);
            KindsOf(Unsubscribed(mask, items)) == KindsOf(mask) - named
            <==> !(Binding in named && Input in KindsOf(mask) && Input !in named)
  {
    UnsubscribeIsDifference(mask, items);
    var named := set k | k in Named(items, EventToType);
    var released := Released(Named(items, EventToType));
    var kinds := KindsOf(mask);
    assert Binding !in kinds && Binding !in SUBSCRIBABLE;
    assert Input in released <==> Input in named || Binding in named;
    forall k | k != Input && k != Binding
      ensures k in released <==> k in named
    {
      if k in named { assert Effective(k) == k; }
    }
  }

  /** The concrete case: a client that listens to input events loses them. */
  lemma UnsubscribeBindingDropsInput()
    ensures Selects(SetAll(NO_EVENTS, [Input]), Input)
    ensures !Selects(Unsubscribed(SetAll(NO_EVENTS, [Input]), [Name("binding")]), Input)
  {
    assert EventToType("binding") == Some(Binding);
    assert Named([Name("binding")], EventToType) == [Binding];
    SetAllSelects(NO_EVENTS, [Input], Input);
    ClearAllSelects(SetAll(NO_EVENTS, [Input]), [Binding], Input);
    assert Effective(Binding) in Released([Binding]);
  }

  // ---------- By the names of the protocol ----------

  /** The name of an event kind in the protocol. */
  function NameOf(k: EventKind): string {
    match k
    case Workspace => "workspace"
    case Output => "output"
    case Mode => "mode"
    case Window => "window"
    case Binding => "binding"
    case Shutdown => "shutdown"
    case Tick => "tick"
    case Input => "input"
  }

  /** The names of the event types of the protocol, in the order of their numbers from
      0x80000000 on; the types 0x80000008 to 0x80000013 are not in use. */
  const EVENT_NAMES: seq<string> :=
    ["workspace", "output", "mode", "window", "barconfig_update", "binding", "shutdown", "tick"]

  const LATER_EVENT_NAMES: seq<string> := ["bar_state_update", "input"]

  /** The frame of an event has the number that belongs to the name of the event. */
  lemma EventTypesAreDocumented(k: EventKind)
    ensures var n := FrameKind(k) - 0x8000_0000;
            || (0 <= n < |EVENT_NAMES| && EVENT_NAMES[n] == NameOf(k))
            || (0x14 <= n < 0x14 + |LATER_EVENT_NAMES| && LATER_EVENT_NAMES[n - 0x14] == NameOf(k))
  {
  }

  /** The kinds whose names an UNSUBSCRIBE request knows. */
  const RELEASABLE: set<EventKind> := SUBSCRIBABLE + {Binding}

  /** SUBSCRIBE reads the names of the six subscribable kinds, and nothing else. */
  lemma NamesAreRead(name: string, k: EventKind)
    ensures SubscribeKind(name) == Some(k) <==> k in SUBSCRIBABLE && name == NameOf(k)
  {
  }

  /** UNSUBSCRIBE reads the names of these and of binding, and nothing else. */
  lemma ReleasedNamesAreRead(name: string, k: EventKind)
    ensures EventToType(name) == Some(k) <==> k in RELEASABLE && name == NameOf(k)
  {
  }

  /** A string in the array that is the name of one of some kinds. */
  predicate IsNameIn(text: string, kinds: set<EventKind>) {
    exists k :: k in kinds && text == NameOf(k)
  }

  predicate AllNames(items: seq<Item>, kinds: set<EventKind>) {
    forall i :: 0 <= i < |items| && items[i].Name? ==> IsNameIn(items[i].text, kinds)
  }

  /** What SUBSCRIBE makes of the kinds listened to: if every string in the array is the
      name of a subscribable kind, those kinds are added; if not, nothing is left. */
  function KindsAfterSubscribe(kinds: set<EventKind>, items: seq<Item>): set<EventKind> {
    if AllNames(items, SUBSCRIBABLE)
    then kinds + set k | k in SUBSCRIBABLE && Name(NameOf(k)) in items
    else {}
  }

  /** The array up to the first string that is not known. */
  function KnownUpTo(items: seq<Item>, known: string -> bool): (part: seq<Item>)
    ensures part <= items
    ensures forall i :: 0 <= i < |part| && part[i].Name? ==> known(part[i].text)
    ensures part != items ==> items[|part|].Name? && !known(items[|part|].text)
  {
    if items == [] then []
    else
      var before := KnownUpTo(items[..|items| - 1], known);
      var last := items[|items| - 1];
      if before == items[..|items| - 1] && (last.Name? ==> known(last.text)) then items else before
  }

  function KnownPart(items: seq<Item>): seq<Item> {
    KnownUpTo(items, text => IsNameIn(text, RELEASABLE))
  }

  /** What UNSUBSCRIBE makes of them: the kinds named before the first string that is no
      name are taken away, and input also by the name of binding. */
  function KindsAfterUnsubscribe(kinds: set<EventKind>, items: seq<Item>): set<EventKind> {
    var part := KnownPart(items);
    kinds - set k | k in SUBSCRIBABLE &&
                    (Name(NameOf(k)) in part || (k == Input && Name(NameOf(Binding)) in part))
  }

  lemma {:induction false} NamedIs(items: seq<Item>, kindOf: Reader, k: EventKind)
    requires AllKnown(items, kindOf)
    ensures k in Named(items, kindOf) <==>
            exists i :: 0 <= i < |items| && items[i].Name? && kindOf(items[i].text) == Some(k)
  {
    if items != [] {
      var n := |items| - 1;
      var before := items[..n];
      NamedIs(before, kindOf, k);
      assert forall i :: 0 <= i < n ==> items[i] == before[i];
      if items[n].Name? && kindOf(items[n].text) == Some(k) {
        assert Named(items, kindOf)[|Named(before, kindOf)|] == k;
      }
    }
  }

  lemma SubscribedNames(items: seq<Item>, k: EventKind)
    requires AllKnown(items, SubscribeKind)
    ensures k in Named(items, SubscribeKind) <==> k in SUBSCRIBABLE && Name(NameOf(k)) in items
  {
    NamedIs(items, SubscribeKind, k);
    NamesAreRead(NameOf(k), k);
    forall i | 0 <= i < |items| && items[i].Name?
      ensures SubscribeKind(items[i].text) == Some(k) <==> k in SUBSCRIBABLE && items[i].text == NameOf(k)
    {
      NamesAreRead(items[i].text, k);
    }
  }

  lemma KnownIffName(text: string)
    ensures SubscribeKind(text).Some? <==> IsNameIn(text, SUBSCRIBABLE)
    ensures EventToType(text).Some? <==> IsNameIn(text, RELEASABLE)
  {
    if SubscribeKind(text).Some? {
      NamesAreRead(text, SubscribeKind(text).value);
    }
    if EventToType(text).Some? {
      ReleasedNamesAreRead(text, EventToType(text).value);
    }
    if IsNameIn(text, SUBSCRIBABLE) {
      var k :| k in SUBSCRIBABLE && text == NameOf(k);
      NamesAreRead(text, k);
    }
    if IsNameIn(text, RELEASABLE) {
      var k :| k in RELEASABLE && text == NameOf(k);
      ReleasedNamesAreRead(text, k);
    }
  }

  lemma AllKnownIsNames(items: seq<Item>)
    ensures AllKnown(items, SubscribeKind) <==> AllNames(items, SUBSCRIBABLE)
    ensures AllKnown(items, EventToType) <==> AllNames(items, RELEASABLE)
  {
    forall i | 0 <= i < |items| && items[i].Name?
      ensures SubscribeKind(items[i].text).Some? <==> IsNameIn(items[i].text, SUBSCRIBABLE)
      ensures EventToType(items[i].text).Some? <==> IsNameIn(items[i].text, RELEASABLE)
    {
      KnownIffName(items[i].text);
    }
  }

  lemma SubscribeReads(items: seq<Item>, known: bool, tick: bool)
    requires known == AllNames(items, SUBSCRIBABLE) && tick == (Name(NameOf(Tick)) in items)
    ensures known == AllKnown(items, SubscribeKind)
    ensures known ==> tick == (Tick in Named(items, SubscribeKind))
  {
    AllKnownIsNames(items);
    if known { SubscribedNames(items, Tick); }
  }

  /** SUBSCRIBE, for any array, by the names of the protocol. */
  lemma SubscribeByName(mask: Mask, items: seq<Item>)
    ensures KindsOf(Subscribed(mask, items)) == KindsAfterSubscribe(KindsOf(mask), items)
  {
    SubscribeIsUnion(mask, items);
    forall i | 0 <= i < |items| && items[i].Name?
      ensures SubscribeKind(items[i].text).Some? <==> IsNameIn(items[i].text, SUBSCRIBABLE)
    {
      KnownIffName(items[i].text);
    }
    if AllKnown(items, SubscribeKind) {
      forall k ensures k in Named(items, SubscribeKind) <==> k in SUBSCRIBABLE && Name(NameOf(k)) in items {
        SubscribedNames(items, k);
      }
    }
  }

  lemma KnownPartIsRead(items: seq<Item>)
    ensures AllKnown(KnownPart(items), EventToType)
    ensures Named(items, EventToType) == Named(KnownPart(items), EventToType)
  {
    var part := KnownPart(items);
    forall i | 0 <= i < |part| && part[i].Name? ensures EventToType(part[i].text).Some? {
      KnownIffName(part[i].text);
    }
    if part != items {
      KnownIffName(items[|part|].text);
      NamedStops(items, |part|, EventToType);
      assert items[..|part|] == part;
    }
  }

  lemma ReleasedNames(part: seq<Item>, k: EventKind)
    requires AllKnown(part, EventToType)
    ensures k in Named(part, EventToType) <==> k in RELEASABLE && Name(NameOf(k)) in part
  {
    NamedIs(part, EventToType, k);
    ReleasedNamesAreRead(NameOf(k), k);
    forall i | 0 <= i < |part| && part[i].Name?
      ensures EventToType(part[i].text) == Some(k) <==> k in RELEASABLE && part[i].text == NameOf(k)
    {
      ReleasedNamesAreRead(part[i].text, k);
    }
  }

  /** UNSUBSCRIBE, for any array, by the names of the protocol. */
  lemma UnsubscribeByName(mask: Mask, items: seq<Item>)
    ensures KindsOf(Unsubscribed(mask, items)) == KindsAfterUnsubscribe(KindsOf(mask), items)
  {
    var part, kinds := KnownPart(items), Named(items, EventToType);
    UnsubscribeIsDifference(mask, items);
    KnownPartIsRead(items);
    forall k | k in SUBSCRIBABLE
      ensures k in Released(kinds) <==>
              Name(NameOf(k)) in part || (k == Input && Name(NameOf(Binding)) in part)
    {
      ReleasedNames(part, k);
      ReleasedNames(part, Binding);
      ReleasedIs(kinds, k);
    }
  }

  lemma ReleasedIs(kinds: seq<EventKind>, k: EventKind)
    requires k in SUBSCRIBABLE
    ensures k in Released(kinds) <==> k in kinds || (k == Input && Binding in kinds)
  {
    if k in kinds { assert Effective(k) == k; }
    if k == Input && Binding in kinds { assert Effective(Binding) == Input; }
  }

  /** Items after an unknown name do not count. */
  lemma {:induction false} NamedStops(items: seq<Item>, i: nat, kindOf: Reader)
    requires i < |items| && items[i].Name? && kindOf(items[i].text).None?
    ensures Named(items, kindOf) == Named(items[..i], kindOf)
  {
    var before := items[..|items| - 1];
    if i < |before| {
      assert before[i] == items[i];
      NamedStops(before, i, kindOf);
      assert before[..i] == items[..i];
      assert !AllKnown(before, kindOf);
    }
  }
}
