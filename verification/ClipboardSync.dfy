/**
  Clipboard synchronisation between two machines: every change is announced once, an unmarked
  content is sent to the other side, and what arrives is put on the clipboard with an owner mark so
  that its own announcement sends nothing back.
*/
module ClipboardSync {
  import opened ClipboardCodec

  const OWNER_FORMAT: string := "dyn.com.boagestao.bgdesk.owner"

  datatype Side = Host | Client

  function OwnerData(side: Side): Bytes {
    match side
    case Host => [1]
    case Client => [2]
  }

  /** `is_owner`: either mark, whichever side asks. */
  predicate IsOwner(data: Bytes) {
    |data| > 0 && data[0] % 4 != 0
  }

  predicate IsMark(item: Item) {
    item.Special? && item.name == OWNER_FORMAT && IsOwner(item.data)
  }

  predicate Marked(items: seq<Item>) {
    exists i | 0 <= i < |items| :: IsMark(items[i])
  }

  predicate Keeps(item: Item) {
    match item
    case Special(name, _) => name != OWNER_FORMAT
    case Text(text) => text != []
    case _ => true
  }

  function Kept(items: seq<Item>): seq<Item> {
    if items == [] then [] else Kept(items[..|items| - 1]) + if Keeps(items[|items| - 1]) then [items[|items| - 1]] else []
  }

  predicate HasFiles(items: seq<Item>) {
    exists i | 0 <= i < |items| :: items[i].FileUrl?
  }

  /** `get`: what a side sends of its clipboard. */
  function Visible(items: seq<Item>, force: bool): seq<Item> {
    if !force && Marked(items) then []
    else if HasFiles(Kept(items)) then []
    else Kept(items)
  }

  function Update(items: seq<Item>, side: Side): seq<Item> {
    items + [Special(OWNER_FORMAT, OwnerData(side))]
  }

  class ClipboardContext {
    var items: seq<Item>

    /** `get_formats_filter`, then the check for files of `get`. */
    method Get(force: bool) returns (data: seq<Item>)
      ensures data == Visible(items, force)
    {
      if !force {
        for i := 0 to |items|
          invariant forall j | 0 <= j < i :: !IsMark(items[j])
        {
          if items[i].Special? && items[i].name == OWNER_FORMAT && IsOwner(items[i].data) {
            return [];
          }
        }
      }
      data := [];
      for i := 0 to |items|
        invariant data == Kept(items[..i])
      {
        assert items[..i + 1][..i] == items[..i];
        if Keeps(items[i]) {
          data := data + [items[i]];
        }
      }
      assert items[..|items|] == items;
      if HasFiles(data) {
        data := [];
      }
    }

    /** `do_update_clipboard_`: an update is marked, so its own announcement sends nothing. */
    method DoUpdate(data: seq<Item>, side: Side)
      modifies this
      ensures items == Update(data, side) && Marked(items) && Visible(items, false) == []
      ensures data <= items && Visible(items, true) == Visible(data, true)
    {
      items := data + [Special(OWNER_FORMAT, OwnerData(side))];
      UpdateIsMarked(data, side);
      UpdateKeepsData(data, side);
    }
  }

  /** An update puts all of its data on the clipboard: apart from the mark, what is there is the data. */
  lemma UpdateKeepsData(data: seq<Item>, side: Side)
    ensures data <= Update(data, side) && |Update(data, side)| == |data| + 1 && IsMark(Update(data, side)[|data|])
    ensures Kept(Update(data, side)) == Kept(data) && Visible(Update(data, side), true) == Visible(data, true)
  {
    assert Update(data, side)[..|data|] == data;
  }

  lemma {:induction false} KeptMembers(items: seq<Item>, item: Item)
    ensures item in Kept(items) <==> item in items && Keeps(item)
  {
    if items != [] {
      KeptMembers(items[..|items| - 1], item);
      assert items == items[..|items| - 1] + [items[|items| - 1]];
    }
  }

  predicate Ordinary(item: Item) {
    !item.FileUrl? && item != Text([]) && !(item.Special? && item.name == OWNER_FORMAT)
  }

  lemma {:induction false} KeptWhole(items: seq<Item>)
    requires forall i | 0 <= i < |items| :: Keeps(items[i])
    ensures Kept(items) == items
  {
    if items != [] {
      KeptWhole(items[..|items| - 1]);
    }
  }

  /** A clipboard of ordinary items is sent whole and in order; one with files is not sent at all. */
  lemma SentWhole(items: seq<Item>)
    ensures (forall i | 0 <= i < |items| :: Ordinary(items[i])) ==> Visible(items, false) == items
    ensures (exists i | 0 <= i < |items| :: items[i].FileUrl?) ==> Visible(items, false) == []
  {
    if forall i | 0 <= i < |items| :: Ordinary(items[i]) {
      KeptWhole(items);
    }
    if exists i | 0 <= i < |items| :: items[i].FileUrl? {
      var i :| 0 <= i < |items| && items[i].FileUrl?;
      KeptMembers(items, items[i]);
    }
  }

  lemma UpdateIsMarked(data: seq<Item>, side: Side)
    ensures Marked(Update(data, side))
  {
    assert IsMark(Update(data, side)[|data|]);
  }

  // ---------------------------------------------------------------------------------------------
  // Two machines

  /** What a pending announcement is about: the user's own copy, an update, or an update that the user
      has copied over since. */
  datatype Notice = OwnCopy | Updated | Overtaken

  /** A clipboard and how many of its changes were not yet announced, by kind. */
  datatype Machine = Machine(items: seq<Item>, own: nat, updated: nat, overtaken: nat) {

    function Pending(): nat {
      own + updated + overtaken
    }

    predicate Has(notice: Notice) {
      match notice
      case OwnCopy => own > 0
      case Updated => updated > 0
      case Overtaken => overtaken > 0
    }

    function Announced(notice: Notice): Machine
      requires Has(notice)
    {
      match notice
      case OwnCopy => this.(own := own - 1)
      case Updated => this.(updated := updated - 1)
      case Overtaken => this.(overtaken := overtaken - 1)
    }

    /** The user copies: every update that is still to be announced has been overtaken. */
    function Copy(items: seq<Item>): Machine {
      Machine(items, own + 1, 0, overtaken + updated)
    }
  }

  /**
    `toHost` and `toClient` are the messages under way. The counters are history: user copies,
    messages sent, and updates that a user copy got in front of before they were announced.
  */
  datatype World = World(
    host: Machine, client: Machine, toHost: multiset<seq<Clipboard>>, toClient: multiset<seq<Clipboard>>,
    copies: nat, sends: nat, overtaken: nat,
    hostCopies: set<seq<Item>>, clientCopies: set<seq<Item>>)

  datatype Action =
    | Copy(side: Side, items: seq<Item>)
    | Announce(side: Side, notice: Notice, readFails: bool)  // in whatever order they are delivered
    | Arrive(side: Side, message: seq<Clipboard>, setFails: bool)

  function On(w: World, side: Side): Machine {
    match side
    case Host => w.host
    case Client => w.client
  }

  function With(w: World, side: Side, m: Machine): World {
    match side
    case Host => w.(host := m)
    case Client => w.(client := m)
  }

  function Inbox(w: World, side: Side): multiset<seq<Clipboard>> {
    match side
    case Host => w.toHost
    case Client => w.toClient
  }

  predicate Possible(w: World, a: Action) {
    match a
    case Copy(_, _) => true
    case Announce(side, notice, _) => On(w, side).Has(notice)
    case Arrive(side, message, _) => message in Inbox(w, side)
  }

  function Send(w: World, from: Side, message: seq<Clipboard>): World {
    match from
    case Host => w.(toClient := w.toClient + multiset{message}, sends := w.sends + 1)
    case Client => w.(toHost := w.toHost + multiset{message}, sends := w.sends + 1)
  }

  function Copied(w: World, side: Side, items: seq<Item>): World {
    match side
    case Host => w.(copies := w.copies + 1, hostCopies := w.hostCopies + {items})
    case Client => w.(copies := w.copies + 1, clientCopies := w.clientCopies + {items})
  }

  function Take(w: World, side: Side, message: seq<Clipboard>): World {
    match side
    case Host => w.(toHost := w.toHost - multiset{message})
    case Client => w.(toClient := w.toClient - multiset{message})
  }

  function Do(lib: Library, w: World, a: Action): World
    requires Possible(w, a)
  {
    match a
    case Copy(side, items) =>
      var m := On(w, side);
      Copied(With(w, side, m.Copy(items)), side, items).(overtaken := w.overtaken + m.updated)
    case Announce(side, notice, readFails) =>
      var m := On(w, side);
      var w1 := With(w, side, m.Announced(notice));
      var content := Visible(m.items, false);
      if readFails || content == [] then w1 else Send(w1, side, EncodeAll(lib, content))
    case Arrive(side, message, setFails) =>
      var m := On(w, side);
      var items := DecodeAll(lib, message);
      if setFails || items == [] then Take(w, side, message)
      else With(Take(w, side, message), side, m.(items := Update(items, side), updated := m.updated + 1))
  }

  predicate Leads(lib: Library, w: World, a: Action, w': World) {
    Possible(w, a) && w' == Do(lib, w, a)
  }

  ghost predicate IsRun(lib: Library, worlds: seq<World>, actions: seq<Action>) {
    && |worlds| == |actions| + 1
    && worlds[0] == NOTHING
    && forall i | 0 <= i < |actions| :: Leads(lib, worlds[i], actions[i], worlds[i + 1])
  }

  /** Announcements that were paid for: by a copy of their own, or by being overtaken. */
  function Credit(m: Machine): nat {
    m.own + m.overtaken
  }

  ghost predicate Balanced(w: World) {
    && w.sends + Credit(w.host) + Credit(w.client) <= w.copies + w.overtaken
    && (w.host.updated > 0 ==> Marked(w.host.items))
    && (w.client.updated > 0 ==> Marked(w.client.items))
  }

  /** An unmarked clipboard holds what its user copied there. */
  ghost predicate Honest(w: World) {
    && (!Marked(w.host.items) && w.host.items != [] ==> w.host.items in w.hostCopies)
    && (!Marked(w.client.items) && w.client.items != [] ==> w.client.items in w.clientCopies)
  }

  /** Messages are made from what was copied on the side they come from. */
  ghost predicate FromCopies(lib: Library, messages: multiset<seq<Clipboard>>, copies: set<seq<Item>>) {
    forall message | message in messages :: exists items :: items in copies && message == EncodeAll(lib, Visible(items, false))
  }

  ghost predicate Inv(lib: Library, w: World) {
    Balanced(w) && Honest(w) && FromCopies(lib, w.toClient, w.hostCopies) && FromCopies(lib, w.toHost, w.clientCopies)
  }

  lemma CopyKeepsInv(lib: Library, w: World, side: Side, items: seq<Item>)
    requires Inv(lib, w)
    ensures Inv(lib, Do(lib, w, Copy(side, items)))
  {}

  lemma AnnounceKeepsInv(lib: Library, w: World, side: Side, notice: Notice, readFails: bool)
    requires Inv(lib, w) && Possible(w, Announce(side, notice, readFails))
    ensures Inv(lib, Do(lib, w, Announce(side, notice, readFails)))
  {
    var m := On(w, side);
    if Visible(m.items, false) != [] {
      assert !Marked(m.items) && m.items != [];
    }
  }

  lemma ArriveKeepsInv(lib: Library, w: World, side: Side, message: seq<Clipboard>, setFails: bool)
    requires Inv(lib, w) && Possible(w, Arrive(side, message, setFails))
    ensures Inv(lib, Do(lib, w, Arrive(side, message, setFails)))
  {
    UpdateIsMarked(DecodeAll(lib, message), side);
  }

  lemma {:induction false} RunKeepsInv(lib: Library, worlds: seq<World>, actions: seq<Action>, n: nat)
    requires IsRun(lib, worlds, actions) && n < |worlds|
    ensures Inv(lib, worlds[n])
  {
    if n > 0 {
      RunKeepsInv(lib, worlds, actions, n - 1);
      assert Leads(lib, worlds[n - 1], actions[n - 1], worlds[n]);
      match actions[n - 1]
      case Copy(side, items) => CopyKeepsInv(lib, worlds[n - 1], side, items);
      case Announce(side, notice, fails) => AnnounceKeepsInv(lib, worlds[n - 1], side, notice, fails);
      case Arrive(side, message, fails) => ArriveKeepsInv(lib, worlds[n - 1], side, message, fails);
    }
  }

  /** No run sends more messages than users copied, but for one per update that a copy overtook. */
  lemma NoEcho(lib: Library, worlds: seq<World>, actions: seq<Action>, n: nat)
    requires IsRun(lib, worlds, actions) && n < |worlds|
    ensures worlds[n].sends <= worlds[n].copies + worlds[n].overtaken
  {
    RunKeepsInv(lib, worlds, actions, n);
  }

  /** Messages never carry back what came from the other side: whatever is under way to a machine
      is the wire form of something the user copied on the other one. */
  lemma MessagesCarryCopies(lib: Library, worlds: seq<World>, actions: seq<Action>, n: nat)
    requires IsRun(lib, worlds, actions) && n < |worlds|
    ensures FromCopies(lib, worlds[n].toClient, worlds[n].hostCopies)
    ensures FromCopies(lib, worlds[n].toHost, worlds[n].clientCopies)
  {
    RunKeepsInv(lib, worlds, actions, n);
  }

  /** No user copies while an update of that clipboard is still to be announced. */
  predicate Prompt(w: World, a: Action) {
    a.Copy? ==> On(w, a.side).updated == 0
  }

  lemma {:induction false} PromptRunsOvertakeNothing(lib: Library, worlds: seq<World>, actions: seq<Action>, n: nat)
    requires IsRun(lib, worlds, actions) && n < |worlds|
    requires forall i | 0 <= i < |actions| :: Prompt(worlds[i], actions[i])
    ensures worlds[n].overtaken == 0
  {
    if n > 0 {
      PromptRunsOvertakeNothing(lib, worlds, actions, n - 1);
      assert Leads(lib, worlds[n - 1], actions[n - 1], worlds[n]);
    }
  }

  /** With announcements handled before the next copy, at most one message per user copy. */
  lemma OneMessagePerCopy(lib: Library, worlds: seq<World>, actions: seq<Action>, n: nat)
    requires IsRun(lib, worlds, actions) && n < |worlds|
    requires forall i | 0 <= i < |actions| :: Prompt(worlds[i], actions[i])
    ensures worlds[n].sends <= worlds[n].copies
  {
    NoEcho(lib, worlds, actions, n);
    PromptRunsOvertakeNothing(lib, worlds, actions, n);
  }

  function Other(side: Side): Side {
    match side
    case Host => Client
    case Client => Host
  }

  /** In whatever state the two machines are: after a copy, its announcement and the arrival of what that
      sent, none of them failing, the other machine holds the copied items that are sent and have a wire
      form, in order, and the mark behind them. */
  lemma CopyIsDelivered(lib: Library, w: World, side: Side, items: seq<Item>)
    returns (w1: World, w2: World, w3: World)
    requires Lossless(lib) && forall i | 0 <= i < |items| :: WellFormed(lib, items[i])
    requires Supported(Visible(items, false)) != []
    ensures Leads(lib, w, Copy(side, items), w1)
    ensures Leads(lib, w1, Announce(side, OwnCopy, false), w2)
    ensures Leads(lib, w2, Arrive(Other(side), EncodeAll(lib, Visible(items, false)), false), w3)
    ensures On(w3, Other(side)).items
         == Supported(Visible(items, false)) + [Special(OWNER_FORMAT, OwnerData(Other(side)))]
  {
    var sent := Visible(items, false);
    VisibleIsWellFormed(lib, items);
    ItemsRoundTrip(lib, sent);
    w1 := Do(lib, w, Copy(side, items));
    w2 := Do(lib, w1, Announce(side, OwnCopy, false));
    assert EncodeAll(lib, sent) in Inbox(w2, Other(side));
    w3 := Do(lib, w2, Arrive(Other(side), EncodeAll(lib, sent), false));
  }

  lemma VisibleIsWellFormed(lib: Library, items: seq<Item>)
    requires forall i | 0 <= i < |items| :: WellFormed(lib, items[i])
    ensures forall i | 0 <= i < |Visible(items, false)| :: WellFormed(lib, Visible(items, false)[i])
  {
    var sent := Visible(items, false);
    forall i | 0 <= i < |sent|
      ensures WellFormed(lib, sent[i])
    {
      KeptMembers(items, sent[i]);
    }
  }

  /** Which announcement comes next does not matter; this takes one that is there. */
  function NextNotice(m: Machine): Notice {
    if m.overtaken > 0 then Overtaken else if m.own > 0 then OwnCopy else Updated
  }

  function AnnounceTimes(lib: Library, w: World, side: Side, k: nat): (w': World)
    requires k <= On(w, side).Pending()
    ensures On(w', side).Pending() == On(w, side).Pending() - k && On(w', side).items == On(w, side).items
  {
    if k == 0 then w
    else
      var w1 := AnnounceTimes(lib, w, side, k - 1);
      Do(lib, w1, Announce(side, NextNotice(On(w1, side)), false))
  }

  lemma {:induction false} EachAnnouncementSends(lib: Library, w: World, side: Side, k: nat)
    requires Visible(On(w, side).items, false) != [] && k <= On(w, side).Pending()
    ensures var w' := AnnounceTimes(lib, w, side, k);
            w'.sends == w.sends + k && w'.copies == w.copies
  {
    if k > 0 {
      EachAnnouncementSends(lib, w, side, k - 1);
    }
  }

  /** Why promptness matters: behind a copy every pending announcement sends it, those of the user's own
      copies and those of updates. So nothing is sent in excess of the user's pending copies if and only
      if no update, overtaken before or only now, is pending. */
  lemma OvertakingRepeatsTheCopy(lib: Library, w: World, side: Side, items: seq<Item>)
    requires Visible(items, false) != []
    ensures var m, w1 := On(w, side), Do(lib, w, Copy(side, items));
            && On(w1, side).Pending() == m.Pending() + 1
            && var w' := AnnounceTimes(lib, w1, side, m.Pending() + 1);
               && On(w', side).Pending() == 0 && w'.copies == w.copies + 1
               && w'.sends == w.sends + m.Pending() + 1
               && (w'.sends - w.sends <= m.own + 1 <==> m.overtaken == 0 && Prompt(w, Copy(side, items)))
  {
    EachAnnouncementSends(lib, Do(lib, w, Copy(side, items)), side, On(w, side).Pending() + 1);
  }

  lemma TextIsVisible(text: Bytes)
    requires text != []
    ensures Visible([Text(text)], false) == [Text(text)]
  {
    assert Kept([Text(text)]) == Kept([]) + [Text(text)];
  }

  const NOTHING: World := World(Machine([], 0, 0, 0), Machine([], 0, 0, 0), multiset{}, multiset{}, 0, 0, 0, {}, {})

  /** The host's copy on its way to the client, and there. */
  lemma Delivered(lib: Library, text: Bytes, items: seq<Item>) returns (w1: World, w2: World, w3: World)
    requires Lossless(lib) && text != [] && lib.isUtf8(text) && items == [Text(text)]
    ensures Leads(lib, NOTHING, Copy(Host, items), w1)
    ensures Leads(lib, w1, Announce(Host, OwnCopy, false), w2)
    ensures Leads(lib, w2, Arrive(Client, EncodeAll(lib, items), false), w3)
    ensures w3.client == Machine(Update(items, Client), 0, 1, 0) && w3.copies == 1 && w3.sends == 1
  {
    TextIsVisible(text);
    ItemsRoundTrip(lib, items);
    w1 := Do(lib, NOTHING, Copy(Host, items));
    w2 := Do(lib, w1, Announce(Host, OwnCopy, false));
    assert EncodeAll(lib, items) in w2.toClient;
    w3 := Do(lib, w2, Arrive(Client, EncodeAll(lib, items), false));
  }

  /** A copy in front of one pending update, and both announcements. */
  lemma Overtook(lib: Library, w: World, items: seq<Item>) returns (w1: World, w2: World, w3: World)
    requires w.client.updated == 1 && Visible(items, false) == items != []
    ensures Leads(lib, w, Copy(Client, items), w1)
    ensures Leads(lib, w1, Announce(Client, Overtaken, false), w2)
    ensures Leads(lib, w2, Announce(Client, OwnCopy, false), w3)
    ensures w3.copies == w.copies + 1 && w3.sends == w.sends + 2
  {
    w1 := Do(lib, w, Copy(Client, items));
    w2 := Do(lib, w1, Announce(Client, Overtaken, false));
    w3 := Do(lib, w2, Announce(Client, OwnCopy, false));
  }

  /** A run in which it happens: the host's copy reaches the client, whose user copies before the update
      is announced, so two copies are sent three times. */
  lemma OvertakingHappens(lib: Library, text: Bytes) returns (worlds: seq<World>, actions: seq<Action>)
    requires Lossless(lib) && text != [] && lib.isUtf8(text)
    ensures IsRun(lib, worlds, actions) && |actions| == 6
    ensures !Prompt(worlds[3], actions[3])
    ensures worlds[6].copies == 2 && worlds[6].sends == 3
  {
    var items := [Text(text)];
    TextIsVisible(text);
    var w1, w2, w3 := Delivered(lib, text, items);
    var w4, w5, w6 := Overtook(lib, w3, items);
    worlds, actions := [NOTHING], [];
    worlds, actions := Extend(lib, worlds, actions, Copy(Host, items), w1);
    worlds, actions := Extend(lib, worlds, actions, Announce(Host, OwnCopy, false), w2);
    worlds, actions := Extend(lib, worlds, actions, Arrive(Client, EncodeAll(lib, items), false), w3);
    worlds, actions := Extend(lib, worlds, actions, Copy(Client, items), w4);
    worlds, actions := Extend(lib, worlds, actions, Announce(Client, Overtaken, false), w5);
    worlds, actions := Extend(lib, worlds, actions, Announce(Client, OwnCopy, false), w6);
  }

  lemma Extend(lib: Library, worlds: seq<World>, actions: seq<Action>, a: Action, w: World)
    returns (worlds': seq<World>, actions': seq<Action>)
    requires IsRun(lib, worlds, actions) && Leads(lib, worlds[|actions|], a, w)
    ensures worlds' == worlds + [w] && actions' == actions + [a] && IsRun(lib, worlds', actions')
  {
    worlds', actions' := worlds + [w], actions + [a];
    forall i | 0 <= i < |actions'|
      ensures Leads(lib, worlds'[i], actions'[i], worlds'[i + 1])
    {
      assert i < |actions| ==> Leads(lib, worlds[i], actions[i], worlds[i + 1]);
    }
  }
}
