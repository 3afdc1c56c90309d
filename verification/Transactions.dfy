/** Nested transaction blocks over one SQLite connection that only the outermost block
    commits or rolls back. */
module Transactions {

  /** How one statement or commit of the connection can go wrong. */
  datatype Fault = NoFault | StatementFails | CommitFails

  class Repository<Db> {
    var working: Db        // what this connection reads
    var committed: Db      // what a crash or another connection sees
    var open: bool         // the connection holds an open transaction
    var depth: nat         // nesting of transaction() blocks
    ghost var published: seq<Db>   // every database state made durable, in order

    ghost predicate Valid()
      reads this
    {
      && (!open ==> working == committed)
      && (depth > 0 ==> open)
    }

    constructor (db: Db)
      ensures Valid() && working == committed == db && !open && depth == 0 && published == []
    {
      working, committed, open, depth, published := db, db, false, 0, [];
    }

    method Commit()
      modifies this
      ensures committed == working == old(working) && !open && depth == old(depth)
      ensures published == old(published) + [working]
    {
      committed, open := working, false;
      published := published + [working];
    }

    /** Entering a transaction() block; BEGIN is refused while a transaction is open. */
    method Enter(beginFails: bool) returns (entered: bool, isOutermost: bool)
      requires Valid()
      modifies this
      ensures Valid() && working == old(working) && committed == old(committed) && published == old(published)
      ensures isOutermost == (old(depth) == 0)
      ensures entered == !(isOutermost && (old(open) || beginFails))
      ensures if entered then depth == old(depth) + 1 && open else depth == old(depth) && open == old(open)
    {
      isOutermost := depth == 0;
      entered := true;
      if isOutermost {
        if open || beginFails {
          entered := false;
          return;
        }
        open := true;
      }
      depth := depth + 1;
    }

    /** Leaving a block by an exception. */
    method Abort(isOutermost: bool)
      requires Valid() && depth > 0 && isOutermost == (depth == 1)
      modifies this
      ensures Valid() && depth == old(depth) - 1 && committed == old(committed) && published == old(published)
      ensures if isOutermost then working == committed && !open else working == old(working) && open
    {
      depth := depth - 1;
      if isOutermost {
        working, open := committed, false;
      }
    }

    /** Leaving a block normally. A commit that fails is not rolled back: the writes stay
        pending on the connection. */
    method Leave(isOutermost: bool, commitFails: bool) returns (ok: bool)
      requires Valid() && depth > 0 && isOutermost == (depth == 1)
      modifies this
      ensures Valid() && depth == old(depth) - 1 && working == old(working)
      ensures ok == !(isOutermost && commitFails)
      ensures if isOutermost && ok then committed == working && !open && published == old(published) + [working]
              else committed == old(committed) && open && published == old(published)
    {
      depth := depth - 1;
      ok := true;
      if isOutermost {
        if commitFails {
          ok := false;
        } else {
          Commit();
        }
      }
    }

    /** One data change followed by _commit, which publishes only outside every block. */
    method Write(next: Db, fault: Fault) returns (ok: bool)
      requires Valid()
      modifies this
      ensures Valid() && depth == old(depth)
      ensures ok == !(fault == StatementFails || (fault == CommitFails && depth == 0))
      ensures working == if fault == StatementFails then old(working) else next
      ensures if ok && depth == 0 then committed == next && !open && published == old(published) + [next]
              else committed == old(committed) && open && published == old(published)
    {
      open := true;
      if fault == StatementFails {
        return false;
      }
      working := next;
      if depth == 0 {
        if fault == CommitFails {
          return false;
        }
        Commit();
      }
      return true;
    }

    /** The process dies and the database is opened again. */
    method Restart()
      requires Valid()
      modifies this
      ensures Valid() && working == committed == old(committed) && !open && depth == 0
      ensures published == old(published)
    {
      working, open, depth := committed, false, 0;
    }

    ghost function Current(): State<Db>
      reads this
    {
      State(working, committed, open, depth)
    }

    /** Runs a program. */
    method Run(p: Program<Db>) returns (flow: Flow)
      requires Valid()
      modifies this
      ensures Valid()
      ensures (Current(), flow) == Meaning(p, old(Current()))
      ensures published == old(published) + (if old(depth) > 0 then [] else Publications(p, old(Current())))
      decreases p, 0
    {
      match p {
        case Skip => flow := Goes;
        case Raise => flow := Raises;
        case Interrupt => flow := Stops;
        case Update(f, fault) =>
          var ok := Write(f(working), fault);
          flow := if ok then Goes else Raises;
        case Then(first, second) =>
          DepthReturns(first, Current());
          flow := Run(first);
          if flow == Goes {
            flow := Run(second);
          }
        case Catch(body) =>
          flow := Run(body);
          flow := if flow == Stops then Stops else Goes;
        case Transaction(body, beginFails, commitFails) =>
          flow := RunBlock(body, beginFails, commitFails);
      }
    }

    /** One transaction() block around a program. Only an exception that is an Exception ends it in order. */
    method RunBlock(body: Program<Db>, beginFails: bool, commitFails: bool) returns (flow: Flow)
      requires Valid()
      modifies this
      ensures Valid()
      ensures (Current(), flow) == Meaning(Transaction(body, beginFails, commitFails), old(Current()))
      ensures published == old(published) +
                           (if old(depth) > 0 then []
                            else BlockPublications(body, beginFails, commitFails, old(Current())))
      decreases body, 1
    {
      var entered, isOutermost := Enter(beginFails);
      if !entered {
        return Raises;
      }
      DepthReturns(body, Current());
      flow := Run(body);
      match flow {
        case Goes =>
          var ok := Leave(isOutermost, commitFails);
          flow := if ok then Goes else Raises;
        case Raises => Abort(isOutermost);
        case Stops =>
      }
    }

    /** Runs programs one after another, whatever becomes of each. */
    method RunTasks(tasks: seq<Program<Db>>)
      requires Valid()
      modifies this
      ensures Valid()
      ensures Current() == AfterTasks(tasks, old(Current()))
      ensures old(depth) > 0 ==> published == old(published)
    {
      ghost var start := Current();
      for i := 0 to |tasks|
        invariant Valid() && Current() == AfterTasks(tasks[..i], start)
        invariant old(depth) > 0 ==> published == old(published)
      {
        assert tasks[..i + 1][..i] == tasks[..i];
        StuckForEver(tasks[..i], start);
        var _ := Run(tasks[i]);
      }
      assert tasks[..|tasks|] == tasks;
    }
  }

  /** Code that nests blocks, writes, exceptions and handlers in any way, with the faults of its statements. An
      interrupt is an exception that no handler of Exception sees. */
  datatype Program<!Db> =
    | Skip
    | Raise
    | Interrupt
    | Update(f: Db -> Db, fault: Fault)
    | Then(first: Program<Db>, second: Program<Db>)
    | Catch(body: Program<Db>)
    | Transaction(body: Program<Db>, beginFails: bool, commitFails: bool)

  /** How a program ends: normally, by an exception, or by an interrupt. */
  datatype Flow = Goes | Raises | Stops

  /** What a connection reads, what is durable, whether it has anything pending, and the depth it believes to be in. */
  datatype State<Db> = State(working: Db, committed: Db, open: bool, depth: nat)

  /** The meaning inside some block: block borders do nothing, not even when an exception crosses them. */
  function Inside<Db>(p: Program<Db>, db: Db): (Db, Flow) {
    match p
    case Skip => (db, Goes)
    case Raise => (db, Raises)
    case Interrupt => (db, Stops)
    case Update(f, fault) => if fault == StatementFails then (db, Raises) else (f(db), Goes)
    case Then(first, second) =>
      var (mid, flow) := Inside(first, db);
      if flow == Goes then Inside(second, mid) else (mid, flow)
    case Catch(body) =>
      var (end, flow) := Inside(body, db);
      (end, if flow == Stops then Stops else Goes)
    case Transaction(body, _, _) => Inside(body, db)
  }

  /** The blocks that an interrupt leaves without ending them. */
  function Unended<Db>(p: Program<Db>, db: Db): nat {
    match p
    case Then(first, second) =>
      var (mid, flow) := Inside(first, db);
      if flow == Goes then Unended(second, mid) else Unended(first, db)
    case Catch(body) => Unended(body, db)
    case Transaction(body, _, _) => if Inside(body, db).1 == Stops then Unended(body, db) + 1 else 0
    case _ => 0
  }

  /** The meaning of an outermost block: it takes full effect, or none, or stays pending as a whole. */
  function Block<Db>(body: Program<Db>, beginFails: bool, commitFails: bool, s: State<Db>): (State<Db>, Flow) {
    if s.open || beginFails then (s, Raises)
    else
      var (end, flow) := Inside(body, s.working);
      match flow
      case Raises => (State(s.committed, s.committed, false, 0), Raises)
      case Stops => (State(end, s.committed, true, Unended(body, s.working) + 1), Stops)
      case Goes => if commitFails then (State(end, s.committed, true, 0), Raises) else (State(end, end, false, 0), Goes)
  }

  /** The meaning outside every block. */
  function Outside<Db>(p: Program<Db>, s: State<Db>): (State<Db>, Flow) {
    match p
    case Skip => (s, Goes)
    case Raise => (s, Raises)
    case Interrupt => (s, Stops)
    case Update(f, fault) =>
      (match fault
       case StatementFails => (s.(open := true), Raises)
       case CommitFails => (State(f(s.working), s.committed, true, 0), Raises)
       case NoFault => (State(f(s.working), f(s.working), false, 0), Goes))
    case Then(first, second) =>
      var (mid, flow) := Outside(first, s);
      if flow == Goes then Outside(second, mid) else (mid, flow)
    case Catch(body) =>
      var (end, flow) := Outside(body, s);
      (end, if flow == Stops then Stops else Goes)
    case Transaction(body, beginFails, commitFails) => Block(body, beginFails, commitFails, s)
  }

  /** The meaning at any depth. */
  function Meaning<Db>(p: Program<Db>, s: State<Db>): (State<Db>, Flow) {
    if s.depth == 0 then Outside(p, s)
    else
      var (end, flow) := Inside(p, s.working);
      (s.(working := end, depth := s.depth + Unended(p, s.working)), flow)
  }

  function AfterTasks<Db>(tasks: seq<Program<Db>>, s: State<Db>): State<Db> {
    if tasks == [] then s else Meaning(tasks[|tasks| - 1], AfterTasks(tasks[..|tasks| - 1], s)).0
  }

  /** Unless an interrupt ends it, a program returns to the depth it started at. */
  lemma {:induction false} DepthReturns<Db>(p: Program<Db>, s: State<Db>)
    ensures Inside(p, s.working).1 != Stops ==> Unended(p, s.working) == 0
    ensures s.depth == 0 && Outside(p, s).1 != Stops ==> Outside(p, s).0.depth == 0
  {
    match p {
      case Then(first, second) =>
        DepthReturns(first, s);
        if s.depth == 0 && Outside(first, s).1 == Goes {
          DepthReturns(second, Outside(first, s).0);
        }
        DepthReturns(second, s.(working := Inside(first, s.working).0));
      case Catch(body) => DepthReturns(body, s);
      case Transaction(body, _, _) => DepthReturns(body, s);
      case _ =>
    }
  }

  /** The depth does not return exactly when the interrupt hits inside a block that was begun: then everything the
      block and its inner blocks wrote stays pending. */
  lemma {:induction false} InterruptedBlockExactly<Db>(
      p: Program<Db>, beginFails: bool, commitFails: bool, s: State<Db>)
    requires s.depth == 0
    ensures var (end, flow) := Block(p, beginFails, commitFails, s);
            && (end.depth > 0 <==> !s.open && !beginFails && Inside(p, s.working).1 == Stops)
            && (end.depth > 0 ==> end == State(Inside(p, s.working).0, s.committed, true, Unended(p, s.working) + 1))
  {
  }

  /** From then on nothing is ever published again, whatever runs: every block is an inner one. */
  lemma {:induction false} StuckForEver<Db>(tasks: seq<Program<Db>>, s: State<Db>)
    ensures s.depth > 0 ==>
      var end := AfterTasks(tasks, s);
      end.depth >= s.depth && end.committed == s.committed && end.open == s.open
  {
    if tasks != [] {
      StuckForEver(tasks[..|tasks| - 1], s);
    }
  }

  function BlockPublications<Db>(body: Program<Db>, beginFails: bool, commitFails: bool, s: State<Db>): seq<Db> {
    if Block(body, beginFails, commitFails, s).1 == Goes then [Inside(body, s.working).0] else []
  }

  /** The durable states a program produces when run outside every block. */
  function Publications<Db>(p: Program<Db>, s: State<Db>): seq<Db> {
    match p
    case Skip => []
    case Raise => []
    case Interrupt => []
    case Update(f, fault) => if fault == NoFault then [f(s.working)] else []
    case Then(first, second) =>
      var (mid, flow) := Outside(first, s);
      Publications(first, s) + (if flow == Goes then Publications(second, mid) else [])
    case Catch(body) => Publications(body, s)
    case Transaction(body, beginFails, commitFails) => BlockPublications(body, beginFails, commitFails, s)
  }

  /** The program with every block border erased. */
  function Flat<Db>(p: Program<Db>): Program<Db> {
    match p
    case Then(first, second) => Then(Flat(first), Flat(second))
    case Catch(body) => Catch(Flat(body))
    case Transaction(body, _, _) => Flat(body)
    case _ => p
  }

  /** Nesting is transparent: inside a block a program does what it does without any of its inner blocks,
      and so a whole block ends and publishes as one with all its inner blocks erased, whatever fails. Only an
      interrupt tells them apart, by the number of blocks it leaves unended. */
  lemma {:induction false} NestingIsTransparent<Db>(
      p: Program<Db>, db: Db, beginFails: bool, commitFails: bool, s: State<Db>)
    ensures Inside(Flat(p), db) == Inside(p, db)
    ensures var flat, nested := Block(Flat(p), beginFails, commitFails, s), Block(p, beginFails, commitFails, s);
            && flat.1 == nested.1 && flat.0 == nested.0.(depth := flat.0.depth)
            && (flat.1 != Stops ==> flat == nested)
    ensures BlockPublications(Flat(p), beginFails, commitFails, s) == BlockPublications(p, beginFails, commitFails, s)
  {
    InsideIsFlat(p, db);
    InsideIsFlat(p, s.working);
  }

  lemma {:induction false} InsideIsFlat<Db>(p: Program<Db>, db: Db)
    ensures Inside(Flat(p), db) == Inside(p, db)
  {
    match p {
      case Then(first, second) =>
        InsideIsFlat(first, db);
        InsideIsFlat(second, Inside(first, db).0);
      case Catch(body) => InsideIsFlat(body, db);
      case Transaction(body, _, _) => InsideIsFlat(body, db);
      case _ =>
    }
  }

  /** What is published last is what is durable at the end; nothing published means nothing durable changed; and
      what is not pending is durable. */
  lemma {:induction false} PublishedIsTheEffect<Db>(p: Program<Db>, s: State<Db>)
    requires !s.open ==> s.working == s.committed
    ensures var (end, _) := Outside(p, s); var ps := Publications(p, s);
            && end.committed == (if ps == [] then s.committed else ps[|ps| - 1])
            && (!end.open ==> end.working == end.committed)
  {
    match p {
      case Then(first, second) =>
        PublishedIsTheEffect(first, s);
        PublishedIsTheEffect(second, Outside(first, s).0);
      case Catch(body) => PublishedIsTheEffect(body, s);
      case _ =>
    }
  }

  /** No commit fails, no statement outside the blocks does, and no interrupt hits inside one. */
  predicate Sound<Db>(p: Program<Db>) {
    match p
    case Update(_, fault) => fault == NoFault
    case Then(first, second) => Sound(first) && Sound(second)
    case Catch(body) => Sound(body)
    case Transaction(body, _, commitFails) => !commitFails && !HasInterrupt(body)
    case _ => true
  }

  predicate HasInterrupt<Db>(p: Program<Db>) {
    match p
    case Interrupt => true
    case Then(first, second) => HasInterrupt(first) || HasInterrupt(second)
    case Catch(body) => HasInterrupt(body)
    case Transaction(body, _, _) => HasInterrupt(body)
    case _ => false
  }

  lemma {:induction false} WithoutInterrupt<Db>(p: Program<Db>, db: Db)
    requires !HasInterrupt(p)
    ensures Inside(p, db).1 != Stops
  {
    match p {
      case Then(first, second) =>
        WithoutInterrupt(first, db);
        WithoutInterrupt(second, Inside(first, db).0);
      case Catch(body) => WithoutInterrupt(body, db);
      case Transaction(body, _, _) => WithoutInterrupt(body, db);
      case _ =>
    }
  }

  /** Only such a failure leaves anything pending; exceptions, failing statements in blocks and failing BEGINs
      do not. */
  lemma {:induction false} SoundLeavesNothingPending<Db>(p: Program<Db>, s: State<Db>)
    requires Sound(p) && !s.open
    ensures !Outside(p, s).0.open
  {
    match p {
      case Then(first, second) =>
        SoundLeavesNothingPending(first, s);
        if Outside(first, s).1 == Goes {
          SoundLeavesNothingPending(second, Outside(first, s).0);
        }
      case Catch(body) => SoundLeavesNothingPending(body, s);
      case Transaction(body, _, _) => WithoutInterrupt(body, s.working);
      case _ =>
    }
  }

  /** A block whose commit fails raises, and the next write outside every block makes all of it durable. */
  lemma {:induction false} FailedCommitIsPublishedLater<Db>(p: Program<Db>, g: Db -> Db, db: Db)
    requires Inside(p, db).1 == Goes
    ensures var block := Transaction(p, false, true); var start := State(db, db, false, 0); var all := Inside(p, db).0;
            && Outside(block, start) == (State(all, db, true, 0), Raises)
            && Outside(Then(Catch(block), Update(g, NoFault)), start) == (State(g(all), g(all), false, 0), Goes)
            && Publications(Then(Catch(block), Update(g, NoFault)), start) == [g(all)]
  {
    var block := Transaction(p, false, true);
    var start := State(db, db, false, 0);
    var mid := State(Inside(p, db).0, db, true, 0);
    assert Outside(block, start) == (mid, Raises);
    assert Outside(Catch(block), start) == (mid, Goes) && Publications(Catch(block), start) == [];
    assert Outside(Update(g, NoFault), mid) == (State(g(mid.working), g(mid.working), false, 0), Goes);
  }

  /** The writes of an inner block survive its exception when the enclosing block handles it;
      the same block alone leaves nothing. */
  lemma HandledInnerFailureKeepsWrites<Db>(f: Db -> Db, db: Db)
    ensures var inner := Transaction(Then(Update(f, NoFault), Raise), false, false);
            var start := State(db, db, false, 0);
            && Outside(Transaction(Catch(inner), false, false), start) == (State(f(db), f(db), false, 0), Goes)
            && Outside(Catch(inner), start) == (start, Goes)
  {
    var failing: Program<Db> := Then(Update(f, NoFault), Raise);
    var start := State(db, db, false, 0);
    assert Inside(failing, db) == (f(db), Raises);
    var inner := Transaction(failing, false, false);
    assert Inside(inner, db) == (f(db), Raises);
    assert Inside(Catch(inner), db) == (f(db), Goes);
    assert Outside(inner, start) == (start, Raises);
  }
}
