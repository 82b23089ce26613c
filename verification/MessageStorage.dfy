/**
 * The message of a transaction: untyped storage with a tag. Objects are constructed in the storage
 * and destroyed there explicitly; a tally counts both.
 */
module MessageStorage {
  import opened Common

  datatype Kind = Empty | OfError | OfReply

  /** What lives in the storage. An object whose contents have been moved out is still alive. */
  datatype Storage<R, E> = Raw | ReplyObject(reply: Option<R>) | ErrorObject(error: Option<E>)

  datatype Slot<R, E> = Slot(kind: Kind, storage: Storage<R, E>)
  {
    /** The tag names the object living in the storage. */
    predicate Valid() {
      match kind
      case Empty => storage.Raw?
      case OfReply => storage.ReplyObject?
      case OfError => storage.ErrorObject?
    }

    /** How many objects the message owns. */
    function Held(): nat {
      if kind == Empty then 0 else 1
    }

    /** The tag stays when the contents are moved out. */
    function MovedFrom(): Slot<R, E> {
      match storage
      case Raw => this
      case ReplyObject(_) => this.(storage := ReplyObject(None))
      case ErrorObject(_) => this.(storage := ErrorObject(None))
    }
  }

  // -------------------------------------------------------------------------------------
  // In place
  // -------------------------------------------------------------------------------------

  class Tally {
    var constructed: nat
    var destroyed: nat

    constructor ()
      ensures constructed == 0 && destroyed == 0
    {
      constructed, destroyed := 0, 0;
    }
  }

  /** How many objects an assignment constructs and destroys. */
  function Constructs<R, E>(to: Slot<R, E>, from: Slot<R, E>): nat {
    if to.kind == from.kind then 0 else from.Held()
  }

  function Destroys<R, E>(to: Slot<R, E>, from: Slot<R, E>): nat {
    if to.kind == from.kind then 0 else to.Held()
  }

  class Message<R, E> {
    const tally: Tally
    var kind: Kind
    var storage: Storage<R, E>

    function View(): Slot<R, E>
      reads this
    {
      Slot(kind, storage)
    }

    constructor (tally: Tally)
      ensures this.tally == tally && View() == Slot(Empty, Raw)
    {
      this.tally, kind, storage := tally, Empty, Raw;
    }

    constructor CopyOf(other: Message<R, E>)
      requires other.View().Valid()
      modifies other.tally
      ensures tally == other.tally && View() == other.View()
      ensures tally.constructed == old(other.tally.constructed) + other.View().Held()
      ensures tally.destroyed == old(other.tally.destroyed)
    {
      tally, kind, storage := other.tally, Empty, Raw;
      new;
      Copy(other);
    }

    /** The contents change hands; the other message keeps its tag and an object to go with it. */
    constructor MoveOf(other: Message<R, E>)
      requires other.View().Valid()
      modifies other, other.tally
      ensures tally == other.tally && View() == old(other.View()) && other.View() == old(other.View()).MovedFrom()
      ensures tally.constructed == old(other.tally.constructed) + old(other.View()).Held()
      ensures tally.destroyed == old(other.tally.destroyed)
    {
      tally, kind, storage := other.tally, Empty, Raw;
      new;
      if other.kind == OfReply {
        SetReply(other.storage.reply);
        other.storage := ReplyObject(None);
      } else if other.kind == OfError {
        SetError(other.storage.error);
        other.storage := ErrorObject(None);
      }
    }

    /** Placement-new: nothing may live in the storage. */
    method SetReply(reply: Option<R>)
      requires storage.Raw?
      modifies this, tally
      ensures View() == Slot(OfReply, ReplyObject(reply))
      ensures tally.constructed == old(tally.constructed) + 1 && tally.destroyed == old(tally.destroyed)
    {
      storage := ReplyObject(reply);
      tally.constructed := tally.constructed + 1;
      kind := OfReply;
    }

    method SetError(error: Option<E>)
      requires storage.Raw?
      modifies this, tally
      ensures View() == Slot(OfError, ErrorObject(error))
      ensures tally.constructed == old(tally.constructed) + 1 && tally.destroyed == old(tally.destroyed)
    {
      storage := ErrorObject(error);
      tally.constructed := tally.constructed + 1;
      kind := OfError;
    }

    /** Run the destructor of a reply: one must live in the storage. */
    method DestroyReply()
      requires storage.ReplyObject?
      modifies this`storage, tally
      ensures storage.Raw?
      ensures tally.constructed == old(tally.constructed) && tally.destroyed == old(tally.destroyed) + 1
    {
      storage := Raw;
      tally.destroyed := tally.destroyed + 1;
    }

    method DestroyError()
      requires storage.ErrorObject?
      modifies this`storage, tally
      ensures storage.Raw?
      ensures tally.constructed == old(tally.constructed) && tally.destroyed == old(tally.destroyed) + 1
    {
      storage := Raw;
      tally.destroyed := tally.destroyed + 1;
    }

    /** Destroy what the tag says is there; the destructor does the same. */
    method Reset()
      requires View().Valid()
      modifies this, tally
      ensures View() == Slot(Empty, Raw)
      ensures tally.constructed == old(tally.constructed)
      ensures tally.destroyed == old(tally.destroyed) + old(View()).Held()
    {
      if kind == OfReply {
        DestroyReply();
      } else if kind == OfError {
        DestroyError();
      }
      kind := Empty;
    }

    method Copy(other: Message<R, E>)
      requires kind == Empty && View().Valid() && other.View().Valid() && other != this
      modifies this, tally
      ensures View() == other.View()
      ensures tally.constructed == old(tally.constructed) + other.View().Held()
      ensures tally.destroyed == old(tally.destroyed)
    {
      if other.kind == OfReply {
        SetReply(other.storage.reply);
      } else if other.kind == OfError {
        SetError(other.storage.error);
      }
    }

    /** Copy assignment, also to itself. */
    method CopyAssign(other: Message<R, E>)
      requires View().Valid() && other.View().Valid() && other.tally == tally
      modifies this, tally
      ensures View() == old(other.View()) && other.View() == old(other.View())
      ensures tally.constructed == old(tally.constructed) + Constructs(old(View()), old(other.View()))
      ensures tally.destroyed == old(tally.destroyed) + Destroys(old(View()), old(other.View()))
      ensures old(kind) == old(other.kind) ==>
                tally.constructed == old(tally.constructed) && tally.destroyed == old(tally.destroyed)
    {
      if kind == other.kind {
        if kind == OfReply {
          storage := ReplyObject(other.storage.reply);
        } else if kind == OfError {
          storage := ErrorObject(other.storage.error);
        }
      } else {
        Reset();
        Copy(other);
      }
    }

    /**
     * Move assignment, also to itself. Contents are moved only between messages of one kind;
     * otherwise they are copied. The result is one more copy, which its caller must destroy.
     */
    method MoveAssign(other: Message<R, E>) returns (result: Message<R, E>)
      requires View().Valid() && other.View().Valid() && other.tally == tally
      modifies this, other, tally
      ensures result != this && result != other && fresh(result) && result.tally == tally && result.View() == View()
      ensures View() == Assigned(old(View()), old(other.View()), this == other)
      ensures other != this ==>
                other.View() == if old(kind) == old(other.kind) then old(other.View()).MovedFrom() else old(other.View())
      ensures tally.constructed == old(tally.constructed) + Constructs(old(View()), old(other.View())) + View().Held()
      ensures tally.destroyed == old(tally.destroyed) + Destroys(old(View()), old(other.View()))
    {
      if kind == other.kind {
        if kind == OfReply {
          storage := ReplyObject(other.storage.reply);
          other.storage := ReplyObject(None);
        } else if kind == OfError {
          storage := ErrorObject(other.storage.error);
          other.storage := ErrorObject(None);
        }
      } else {
        Reset();
        Copy(other);
      }
      result := new Message.CopyOf(this);
    }
  }

  /** What move assignment leaves in its target; moved to itself, a message keeps only its tag. */
  function Assigned<R, E>(to: Slot<R, E>, from: Slot<R, E>, itself: bool): Slot<R, E> {
    if itself then from.MovedFrom() else from
  }

  // -------------------------------------------------------------------------------------
  // Any number of messages
  // -------------------------------------------------------------------------------------

  datatype Command<R, E> =
    | Create(id: nat)
    | CreateCopy(id: nat, other: nat)
    | CreateMove(id: nat, other: nat)
    | PutReply(id: nat, reply: R)
    | PutError(id: nat, error: E)
    | AssignCopy(id: nat, other: nat)
    | AssignMove(id: nat, other: nat)
    | Destroy(id: nat)

  datatype Pool<R, E> = Pool(slots: map<nat, Slot<R, E>>, constructed: nat, destroyed: nat)

  predicate CanDo<R, E>(p: Pool<R, E>, cmd: Command<R, E>) {
    match cmd
    case Create(i) => i !in p.slots
    case CreateCopy(i, j) => i !in p.slots && j in p.slots
    case CreateMove(i, j) => i !in p.slots && j in p.slots
    case PutReply(i, _) => i in p.slots && p.slots[i].kind == Empty
    case PutError(i, _) => i in p.slots && p.slots[i].kind == Empty
    case AssignCopy(i, j) => i in p.slots && j in p.slots
    case AssignMove(i, j) => i in p.slots && j in p.slots
    case Destroy(i) => i in p.slots
  }

  /** What the operations above do, for messages known by number; a result of move assignment is destroyed at once. */
  function Do<R, E>(p: Pool<R, E>, cmd: Command<R, E>): Pool<R, E>
    requires CanDo(p, cmd)
  {
    match cmd
    case Create(i) => p.(slots := p.slots[i := Slot(Empty, Raw)])
    case CreateCopy(i, j) =>
      p.(slots := p.slots[i := p.slots[j]], constructed := p.constructed + p.slots[j].Held())
    case CreateMove(i, j) =>
      p.(slots := p.slots[i := p.slots[j]][j := p.slots[j].MovedFrom()], constructed := p.constructed + p.slots[j].Held())
    case PutReply(i, r) =>
      p.(slots := p.slots[i := Slot(OfReply, ReplyObject(Some(r)))], constructed := p.constructed + 1)
    case PutError(i, e) =>
      p.(slots := p.slots[i := Slot(OfError, ErrorObject(Some(e)))], constructed := p.constructed + 1)
    case AssignCopy(i, j) =>
      Pool(p.slots[i := p.slots[j]],
           p.constructed + Constructs(p.slots[i], p.slots[j]), p.destroyed + Destroys(p.slots[i], p.slots[j]))
    case AssignMove(i, j) =>
      var to, from := p.slots[i], p.slots[j];
      var after := Assigned(to, from, i == j);
      Pool(p.slots[j := if to.kind == from.kind then from.MovedFrom() else from][i := after],
           p.constructed + Constructs(to, from) + after.Held(), p.destroyed + Destroys(to, from) + after.Held())
    case Destroy(i) =>
      p.(slots := p.slots - {i}, destroyed := p.destroyed + p.slots[i].Held())
  }

  ghost predicate CanDoAll<R, E>(p: Pool<R, E>, cmds: seq<Command<R, E>>)
    decreases |cmds|
  {
    cmds == [] || (CanDo(p, cmds[0]) && CanDoAll(Do(p, cmds[0]), cmds[1..]))
  }

  ghost function DoAll<R, E>(p: Pool<R, E>, cmds: seq<Command<R, E>>): Pool<R, E>
    requires CanDoAll(p, cmds)
    decreases |cmds|
  {
    if cmds == [] then p else DoAll(Do(p, cmds[0]), cmds[1..])
  }

  function Full<R, E>(slots: map<nat, Slot<R, E>>): set<nat> {
    set i | i in slots && slots[i].kind != Empty
  }

  /** Every tag is right, and the objects alive are exactly those the non-empty messages own. */
  ghost predicate Balanced<R, E>(p: Pool<R, E>) {
    && (forall i :: i in p.slots ==> p.slots[i].Valid())
    && p.constructed == p.destroyed + |Full(p.slots)|
  }

  lemma FullAfterUpdate<R, E>(slots: map<nat, Slot<R, E>>, i: nat, slot: Slot<R, E>)
    ensures |Full(slots[i := slot])| == |Full(slots)| + slot.Held() - (if i in slots then slots[i].Held() else 0)
  {
    var before, after := Full(slots), Full(slots[i := slot]);
    var others := before - {i};
    assert before == if i in slots && slots[i].kind != Empty then others + {i} else others;
    assert after == if slot.kind != Empty then others + {i} else others;
  }

  lemma FullAfterRemoval<R, E>(slots: map<nat, Slot<R, E>>, i: nat)
    requires i in slots
    ensures |Full(slots - {i})| == |Full(slots)| - slots[i].Held()
  {
    var before, after := Full(slots), Full(slots - {i});
    assert before == if slots[i].kind != Empty then after + {i} else after;
  }

  lemma CommandKeeps<R, E>(p: Pool<R, E>, cmd: Command<R, E>)
    requires Balanced(p) && CanDo(p, cmd)
    ensures Balanced(Do(p, cmd))
  {
    match cmd
    case Create(i) => FullAfterUpdate(p.slots, i, Slot(Empty, Raw));
    case CreateCopy(i, j) => FullAfterUpdate(p.slots, i, p.slots[j]);
    case CreateMove(i, j) =>
      FullAfterUpdate(p.slots, i, p.slots[j]);
      FullAfterUpdate(p.slots[i := p.slots[j]], j, p.slots[j].MovedFrom());
    case PutReply(i, r) => FullAfterUpdate(p.slots, i, Slot(OfReply, ReplyObject(Some(r))));
    case PutError(i, e) => FullAfterUpdate(p.slots, i, Slot(OfError, ErrorObject(Some(e))));
    case AssignCopy(i, j) => FullAfterUpdate(p.slots, i, p.slots[j]);
    case AssignMove(i, j) =>
      var to, from := p.slots[i], p.slots[j];
      var left := if to.kind == from.kind then from.MovedFrom() else from;
      FullAfterUpdate(p.slots, j, left);
      FullAfterUpdate(p.slots[j := left], i, Assigned(to, from, i == j));
    case Destroy(i) => FullAfterRemoval(p.slots, i);
  }

  /**
   * Over every sequence of constructions, set-when-empty, copies, moves, assignments (also to
   * itself, also between kinds) and destructions, every tag names what lives in its storage, and
   * constructed minus destroyed is the number of non-empty messages.
   */
  lemma {:induction false} LifetimesBalance<R, E>(p: Pool<R, E>, cmds: seq<Command<R, E>>)
    requires Balanced(p) && CanDoAll(p, cmds)
    ensures Balanced(DoAll(p, cmds))
    decreases |cmds|
  {
    if cmds != [] {
      CommandKeeps(p, cmds[0]);
      LifetimesBalance(Do(p, cmds[0]), cmds[1..]);
    }
  }

  /** An object without contents, or none at all. */
  predicate Hollow<R, E>(slot: Slot<R, E>) {
    match slot.storage
    case Raw => true
    case ReplyObject(reply) => reply.None?
    case ErrorObject(error) => error.None?
  }

  /**
   * Contents change hands: they are in the new message and no longer in the old one, which keeps
   * its kind. Assignment moves them between messages of one kind, and otherwise leaves two copies.
   */
  lemma MovesAreExclusive<R, E>(p: Pool<R, E>, i: nat, j: nat)
    requires Balanced(p) && i != j && j in p.slots
    ensures i !in p.slots ==>
              var q := Do(p, Command<R, E>.CreateMove(i, j));
              q.slots[i] == p.slots[j] && Hollow(q.slots[j]) && q.slots[j].kind == p.slots[j].kind
    ensures i in p.slots ==>
              var q := Do(p, Command<R, E>.AssignMove(i, j));
              && q.slots[i] == p.slots[j] && q.slots[j].kind == p.slots[j].kind
              && (if p.slots[i].kind == p.slots[j].kind then Hollow(q.slots[j]) else q.slots[j] == p.slots[j])
  {
    assert p.slots[j].Valid();
  }

  /** When all messages are destroyed, so are all objects. */
  lemma NothingLeaks<R, E>(cmds: seq<Command<R, E>>)
    requires CanDoAll(Pool(map[], 0, 0), cmds) && DoAll(Pool(map[], 0, 0), cmds).slots == map[]
    ensures var p := DoAll(Pool(map[], 0, 0), cmds);
            p.constructed == p.destroyed
  {
    LifetimesBalance(Pool(map[], 0, 0), cmds);
    assert Full(DoAll(Pool(map[], 0, 0), cmds).slots) == {};
  }

  /** Messages by number, all counted by one tally, and the commands carried out on them in place. */
  class MessagePool<R, E> {
    const tally: Tally
    var messages: map<nat, Message<R, E>>

    constructor ()
      ensures Valid() && View() == Pool(map[], 0, 0) && fresh(tally)
    {
      tally := new Tally();
      messages := map[];
    }

    ghost predicate Valid()
      reads this, tally, messages.Values
    {
      && (forall i :: i in messages ==> messages[i].tally == tally && messages[i].View().Valid())
      && (forall i, j :: i in messages && j in messages && messages[i] == messages[j] ==> i == j)
    }

    ghost function Slots(): map<nat, Slot<R, E>>
      reads this, messages.Values
    {
      map i | i in messages :: messages[i].View()
    }

    ghost function View(): Pool<R, E>
      reads this, tally, messages.Values
    {
      Pool(Slots(), tally.constructed, tally.destroyed)
    }

    method Enter(i: nat, m: Message<R, E>)
      requires Valid() && i !in messages && m.tally == tally && m.View().Valid() && m !in messages.Values
      modifies this`messages
      ensures Valid() && View() == old(View()).(slots := old(Slots())[i := m.View()])
      ensures messages == old(messages)[i := m]
    {
      messages := messages[i := m];
      assert Slots() == old(Slots())[i := m.View()];
    }

    method Execute(cmd: Command<R, E>)
      requires Valid() && CanDo(View(), cmd)
      modifies this, tally, messages.Values
      ensures Valid() && View() == Do(old(View()), cmd)
      ensures fresh(messages.Values - old(messages.Values))
    {
      match cmd {
        case Create(i) => ExecuteCreate(i);
        case CreateCopy(i, j) => ExecuteCreateCopy(i, j);
        case CreateMove(i, j) => ExecuteCreateMove(i, j);
        case PutReply(i, reply) =>
          messages[i].SetReply(Some(reply));
          assert Slots() == old(Slots())[i := messages[i].View()];
        case PutError(i, error) =>
          messages[i].SetError(Some(error));
          assert Slots() == old(Slots())[i := messages[i].View()];
        case AssignCopy(i, j) => ExecuteAssignCopy(i, j);
        case AssignMove(i, j) => ExecuteAssignMove(i, j);
        case Destroy(i) => ExecuteDestroy(i);
      }
    }

    method ExecuteCreate(i: nat)
      requires Valid() && CanDo(View(), Command<R, E>.Create(i))
      modifies this`messages
      ensures Valid() && View() == Do(old(View()), Command<R, E>.Create(i))
      ensures fresh(messages.Values - old(messages.Values))
    {
      var m := new Message(tally);
      Enter(i, m);
    }

    method ExecuteCreateCopy(i: nat, j: nat)
      requires Valid() && CanDo(View(), Command<R, E>.CreateCopy(i, j))
      modifies this`messages, tally
      ensures Valid() && View() == Do(old(View()), Command<R, E>.CreateCopy(i, j))
      ensures fresh(messages.Values - old(messages.Values))
    {
      var m := new Message.CopyOf(messages[j]);
      assert Slots() == old(Slots());
      Enter(i, m);
    }

    method ExecuteAssignCopy(i: nat, j: nat)
      requires Valid() && CanDo(View(), Command<R, E>.AssignCopy(i, j))
      modifies tally, messages.Values
      ensures Valid() && View() == Do(old(View()), Command<R, E>.AssignCopy(i, j))
    {
      messages[i].CopyAssign(messages[j]);
      assert Slots() == old(Slots())[i := old(Slots())[j]];
    }

    method ExecuteDestroy(i: nat)
      requires Valid() && CanDo(View(), Command<R, E>.Destroy(i))
      modifies this`messages, tally, messages.Values
      ensures Valid() && View() == Do(old(View()), Command<R, E>.Destroy(i))
      ensures messages == old(messages) - {i}
    {
      messages[i].Reset();
      messages := messages - {i};
      assert Slots() == old(Slots()) - {i};
    }

    method ExecuteCreateMove(i: nat, j: nat)
      requires Valid() && CanDo(View(), Command<R, E>.CreateMove(i, j))
      modifies this, tally, messages.Values
      ensures Valid() && View() == Do(old(View()), Command<R, E>.CreateMove(i, j))
      ensures fresh(messages.Values - old(messages.Values))
    {
      var m := new Message.MoveOf(messages[j]);
      assert Slots() == old(Slots())[j := old(Slots())[j].MovedFrom()];
      Enter(i, m);
      assert Slots() == old(Slots())[i := old(Slots())[j]][j := old(Slots())[j].MovedFrom()];
    }

    /** The slots that move assignment leaves. */
    method MoveBetween(i: nat, j: nat) returns (result: Message<R, E>)
      requires Valid() && i in messages && j in messages
      modifies tally, messages.Values
      ensures Valid() && fresh(result) && result.tally == tally && result.View() == Slots()[i] && result.View().Valid()
      ensures var to, from := old(Slots())[i], old(Slots())[j];
              && Slots() == old(Slots())[j := if to.kind == from.kind then from.MovedFrom() else from]
                                        [i := Assigned(to, from, i == j)]
              && tally.constructed == old(tally.constructed) + Constructs(to, from) + Slots()[i].Held()
              && tally.destroyed == old(tally.destroyed) + Destroys(to, from)
    {
      hide Constructs, Destroys;
      result := messages[i].MoveAssign(messages[j]);
    }

    /** The copy that move assignment returns is destroyed at the end of the expression. */
    method ExecuteAssignMove(i: nat, j: nat)
      requires Valid() && CanDo(View(), Command<R, E>.AssignMove(i, j))
      modifies tally, messages.Values
      ensures Valid() && View() == Do(old(View()), Command<R, E>.AssignMove(i, j))
    {
      var result := MoveBetween(i, j);
      hide Constructs, Destroys, Assigned;
      ghost var slots := Slots();
      result.Reset();
      assert Slots() == slots;
    }

    /** Any number of commands, one after the other. */
    method ExecuteAll(cmds: seq<Command<R, E>>)
      requires Valid() && CanDoAll(View(), cmds)
      modifies this, tally, messages.Values
      ensures Valid() && View() == DoAll(old(View()), cmds)
      ensures fresh(messages.Values - old(messages.Values))
      decreases |cmds|
    {
      if cmds != [] {
        Execute(cmds[0]);
        ExecuteAll(cmds[1..]);
      }
    }
  }

  /** What the theorem on lifetimes says of the objects themselves: run any commands, and the tally balances. */
  method RunBalanced<R, E>(cmds: seq<Command<R, E>>) returns (pool: MessagePool<R, E>)
    requires CanDoAll(Pool<R, E>.Pool(map[], 0, 0), cmds)
    ensures pool.Valid() && Balanced(pool.View())
  {
    pool := new MessagePool<R, E>();
    assert Balanced(pool.View()) by {
      assert Full(pool.View().slots) == {};
    }
    LifetimesBalance(pool.View(), cmds);
    pool.ExecuteAll(cmds);
  }

  // -------------------------------------------------------------------------------------
  // The room in the storage
  // -------------------------------------------------------------------------------------

  /** How the storage is declared: as a union's type member, or as the union trait's own object. */
  datatype Declaration = TypeOfUnion(sizes: seq<nat>) | TraitObject(size: nat)

  /** A union has room for each of its types, and for one octet at least; the trait has no members. */
  function Room(d: Declaration): nat {
    match d
    case TypeOfUnion(sizes) => Largest(sizes)
    case TraitObject(size) => size
  }

  function Largest(sizes: seq<nat>): nat {
    if sizes == [] then 1 else Max(sizes[0], Largest(sizes[1..]))
  }

  function Max(a: nat, b: nat): nat {
    if a < b then b else a
  }

  lemma {:induction false} UnionHasRoom(sizes: seq<nat>, i: nat)
    requires i < |sizes|
    ensures sizes[i] <= Room(TypeOfUnion(sizes))
    decreases |sizes|
  {
    if i > 0 {
      UnionHasRoom(sizes[1..], i - 1);
    }
  }

  /** Constructing an object of a size in the storage stays inside it. */
  predicate StaysInside(size: nat, d: Declaration) {
    size <= Room(d)
  }

  /**
   * message<Reply, Error> always has room for both. message<void, Error> has room for an error if
   * and only if an error is no larger than an object of the trait, which is empty: never, for an
   * error of more than one octet.
   */
  lemma RoomForMessages(reply: nat, error: nat, trait_: nat)
    ensures StaysInside(reply, TypeOfUnion([reply, error])) && StaysInside(error, TypeOfUnion([reply, error]))
    ensures StaysInside(error, TraitObject(trait_)) <==> error <= trait_
    ensures error > 1 ==> !StaysInside(error, TraitObject(1))
  {
    UnionHasRoom([reply, error], 0);
    UnionHasRoom([reply, error], 1);
  }
}
