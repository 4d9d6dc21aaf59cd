/** The dispatcher with its workers' queues and the list of results. */
module DbThreadMgr {
  import opened Routing

  /** A worker thread's queue. `batch` is the list that its current round took out of the queue; each
      method is one step under the queue's lock or one command of the round. */
  class Worker {
    var queue: seq<Command>
    var batch: seq<Command>
    var consumed: seq<Command> // commands dealt with, oldest first

    ghost function Received(): seq<Command>
      reads this
    {
      consumed + batch + queue
    }

    constructor ()
      ensures queue == [] && batch == [] && consumed == []
    {
      queue, batch, consumed := [], [], [];
    }

    method Query(c: Command)
      modifies this`queue
      ensures queue == old(queue) + [c]
      ensures Received() == old(Received()) + [c]
    {
      queue := queue + [c];
    }

    /** Starts a round: takes the whole queue. */
    method TakeBatch()
      requires batch == []
      modifies this`queue, this`batch
      ensures batch == old(queue) && queue == []
      ensures Received() == old(Received())
    {
      batch := queue;
      queue := [];
    }

    /** Deals with the next command of the round. When the connection is lost, it and the rest of the round
        go back to the front of the queue and the round ends. */
    method ProcessNext(lostConnection: bool)
      requires batch != []
      modifies this
      ensures lostConnection ==> batch == [] && queue == old(batch) + old(queue) && consumed == old(consumed)
      ensures !lostConnection ==>
        batch == old(batch)[1..] && queue == old(queue) && consumed == old(consumed) + [old(batch)[0]]
      ensures Received() == old(Received())
    {
      if lostConnection {
        queue := batch + queue;
        batch := [];
      } else {
        consumed := consumed + [batch[0]];
        batch := batch[1..];
      }
    }
  }

  lemma RoutedNext(issued: seq<Issued>, item: Issued, n: nat)
    requires n > 0
    ensures forall w ::
      Commands(Routed(issued + [item], n, w))
      == Commands(Routed(issued, n, w)) + (if GoesTo(item, n, w) then [item.command] else [])
  {
    forall w ensures Commands(Routed(issued + [item], n, w))
      == Commands(Routed(issued, n, w)) + (if GoesTo(item, n, w) then [item.command] else [])
    {
      RoutedOne(issued, item, n, w);
    }
  }

  datatype ResultInfo = ResultInfo(service: nat, session: nat, code: nat, content: string)

  class Dispatcher {
    var workers: seq<Worker>
    var results: seq<ResultInfo>
    ghost var issued: seq<Issued>
    ghost var added: seq<ResultInfo>
    ghost var delivered: seq<ResultInfo>

    /** Every worker has received exactly the commands routed to it, in issue order; every result was
        delivered or still waits, in the order it was added. */
    ghost predicate Valid()
      reads this, workers
    {
      && (forall i, j :: 0 <= i < j < |workers| ==> workers[i] != workers[j])
      && (|workers| > 0 ==> forall w :: 0 <= w < |workers| ==>
            workers[w].Received() == Commands(Routed(issued, |workers|, w)))
      && added == delivered + results
    }

    constructor (count: nat)
      ensures Valid() && |workers| == count && issued == [] && added == [] && fresh(workers)
    {
      workers, results, issued, added, delivered := [], [], [], [], [];
      new;
      for i := 0 to count
        invariant |workers| == i && results == [] && issued == [] && added == [] && delivered == []
        invariant fresh(workers)
        invariant forall j :: 0 <= j < i ==> workers[j].Received() == []
        invariant forall j, k :: 0 <= j < k < i ==> workers[j] != workers[k]
      {
        var w := new Worker();
        workers := workers + [w];
      }
    }

    /** Routes a command by its key; a flush under key 0 goes to every worker. */
    method Query(key: nat, c: Command)
      requires Valid()
      modifies this`issued, workers
      ensures Valid() && workers == old(workers)
      ensures issued == if workers == [] then old(issued) else old(issued) + [Issued(key, c)]
      ensures forall w :: 0 <= w < |workers| ==>
        && workers[w].queue == old(workers[w].queue) + (if GoesTo(Issued(key, c), |workers|, w) then [c] else [])
        && workers[w].batch == old(workers[w].batch) && workers[w].consumed == old(workers[w].consumed)
    {
      hide Routed, Commands;
      if workers == [] {
        return;
      }
      ghost var item, n := Issued(key, c), |workers|;
      RoutedNext(issued, item, n);
      KeyGoesHome(item, n);
      if c.kind != OT_FLUSH {
        workers[key % |workers|].Query(c);
      } else {
        if key == 0 {
          Broadcast(c);
        } else {
          workers[key % |workers|].Query(c);
        }
      }
      issued := issued + [item];
      forall w | 0 <= w < |workers| ensures workers[w].Received() == Commands(Routed(issued, n, w)) {
        assert workers[w].Received() == old(workers[w].Received()) + (if GoesTo(item, n, w) then [c] else []);
      }
    }

    /** Puts a command into every queue. */
    method Broadcast(c: Command)
      requires forall i, j :: 0 <= i < j < |workers| ==> workers[i] != workers[j]
      modifies workers
      ensures forall w :: 0 <= w < |workers| ==>
        && workers[w].queue == old(workers[w].queue) + [c]
        && workers[w].batch == old(workers[w].batch) && workers[w].consumed == old(workers[w].consumed)
    {
      for i := 0 to |workers|
        invariant forall w :: 0 <= w < |workers| ==>
          && workers[w].queue == old(workers[w].queue) + (if w < i then [c] else [])
          && workers[w].batch == old(workers[w].batch) && workers[w].consumed == old(workers[w].consumed)
      {
        workers[i].Query(c);
      }
    }

    /** One step of worker `w`, at any moment: it starts a round or deals with one command of its round. What
        it has dealt with stays a prefix of the commands routed to it. */
    method Work(w: nat, lostConnection: bool)
      requires Valid() && w < |workers|
      modifies workers[w]
      ensures Valid() && issued == old(issued)
      ensures forall v :: 0 <= v < |workers| && v != w ==> unchanged(workers[v])
      ensures old(workers[w].batch) == [] ==>
        workers[w].batch == old(workers[w].queue) && workers[w].queue == [] &&
        workers[w].consumed == old(workers[w].consumed)
      ensures old(workers[w].batch) != [] && lostConnection ==>
        workers[w].batch == [] && workers[w].queue == old(workers[w].batch) + old(workers[w].queue) &&
        workers[w].consumed == old(workers[w].consumed)
      ensures old(workers[w].batch) != [] && !lostConnection ==>
        workers[w].batch == old(workers[w].batch)[1..] && workers[w].queue == old(workers[w].queue) &&
        workers[w].consumed == old(workers[w].consumed) + [old(workers[w].batch)[0]]
      ensures workers[w].consumed <= Commands(Routed(issued, |workers|, w))
    {
      if workers[w].batch == [] {
        workers[w].TakeBatch();
      } else {
        workers[w].ProcessNext(lostConnection);
      }
      assert workers[w].Received() == Commands(Routed(issued, |workers|, w));
    }

    method AddResultInfo(r: ResultInfo)
      requires Valid()
      modifies this`results, this`added
      ensures Valid() && added == old(added) + [r] && results == old(results) + [r]
    {
      results := results + [r];
      added := added + [r];
    }

    /** Moves all waiting results to the end of the caller's list. */
    method GetResultInfo(list: seq<ResultInfo>) returns (longer: seq<ResultInfo>)
      requires Valid()
      modifies this`results, this`delivered
      ensures Valid() && longer == list + old(results) && results == []
      ensures delivered == old(delivered) + old(results)
    {
      longer := list + results;
      delivered := delivered + results;
      results := [];
    }
  }
}
