/** Which worker gets which command, as a property of the whole sequence of issued commands. */
module Routing {
  const OT_FLUSH: nat := 7

  datatype Command = Command(kind: nat, session: nat, message: string, timeout: int)

  /** A command with the associate id it was issued under. */
  datatype Issued = Issued(key: nat, command: Command)

  predicate IsBroadcast(i: Issued) {
    i.command.kind == OT_FLUSH && i.key == 0
  }

  predicate GoesTo(i: Issued, workers: nat, w: nat)
    requires workers > 0
  {
    IsBroadcast(i) || i.key % workers == w
  }

  /** The issued commands that worker `w` gets, in issue order. */
  function Routed(issued: seq<Issued>, workers: nat, w: nat): seq<Issued>
    requires workers > 0
  {
    if issued == [] then []
    else (if GoesTo(issued[0], workers, w) then [issued[0]] else []) + Routed(issued[1..], workers, w)
  }

  function OfKey(issued: seq<Issued>, key: nat): seq<Issued> {
    if issued == [] then []
    else (if issued[0].key == key then [issued[0]] else []) + OfKey(issued[1..], key)
  }

  function Commands(issued: seq<Issued>): (commands: seq<Command>)
    ensures |commands| == |issued| && forall i :: 0 <= i < |issued| ==> commands[i] == issued[i].command
  {
    seq(|issued|, i requires 0 <= i < |issued| => issued[i].command)
  }

  lemma Associative<T>(a: seq<T>, b: seq<T>, c: seq<T>)
    ensures a + (b + c) == (a + b) + c
  {
  }

  lemma {:induction false} RoutedAppend(a: seq<Issued>, b: seq<Issued>, workers: nat, w: nat)
    requires workers > 0
    ensures Routed(a + b, workers, w) == Routed(a, workers, w) + Routed(b, workers, w)
  {
    hide GoesTo;
    if a == [] {
      assert a + b == b;
    } else {
      assert (a + b)[1..] == a[1..] + b;
      RoutedAppend(a[1..], b, workers, w);
      var first := if GoesTo(a[0], workers, w) then [a[0]] else [];
      Associative(first, Routed(a[1..], workers, w), Routed(b, workers, w));
    }
  }

  lemma RoutedOne(issued: seq<Issued>, i: Issued, workers: nat, w: nat)
    requires workers > 0
    ensures Routed(issued + [i], workers, w) == Routed(issued, workers, w) + if GoesTo(i, workers, w) then [i] else []
  {
    RoutedAppend(issued, [i], workers, w);
  }

  /** All commands of one key are in the queue of one worker, in issue order; any other worker gets only
      the broadcasts among them. */
  lemma {:induction false} KeyStaysTogether(issued: seq<Issued>, workers: nat, key: nat)
    requires workers > 0
    ensures OfKey(Routed(issued, workers, key % workers), key) == OfKey(issued, key)
    ensures forall w, i :: w != key % workers && i in OfKey(Routed(issued, workers, w), key) ==>
      i.command.kind == OT_FLUSH && i.key == 0
  {
    if issued != [] {
      var head, rest := issued[0], issued[1..];
      KeyStaysTogether(rest, workers, key);
      forall w ensures OfKey(Routed(issued, workers, w), key) ==
        (if GoesTo(head, workers, w) && head.key == key then [head] else []) + OfKey(Routed(rest, workers, w), key)
      {
        OfKeyAppend(if GoesTo(head, workers, w) then [head] else [], Routed(rest, workers, w), key);
      }
      hide GoesTo, Routed;
      assert GoesTo(head, workers, key % workers) || head.key != key by { KeyGoesHome(head, workers); }
      forall w, i | w != key % workers && i in OfKey(Routed(issued, workers, w), key)
        ensures i.command.kind == OT_FLUSH && i.key == 0
      {
        if head.key == key && GoesTo(head, workers, w) {
          KeyGoesHome(head, workers);
        }
      }
    }
  }

  /** A command that is in the queues of two workers is a flush under key 0, and such a one is in all. */
  lemma {:induction false} OnlyFlushesSpread(issued: seq<Issued>, workers: nat, v: nat, w: nat, i: Issued)
    requires v < workers && w < workers && v != w
    ensures i in Routed(issued, workers, v) && i in Routed(issued, workers, w)
      <==> i in issued && i.command.kind == 7 && i.key == 0
  {
    RoutedExactly(issued, workers, v, i);
    RoutedExactly(issued, workers, w, i);
  }

  lemma {:induction false} RoutedExactly(issued: seq<Issued>, workers: nat, w: nat, i: Issued)
    requires workers > 0
    ensures i in Routed(issued, workers, w) <==> i in issued && GoesTo(i, workers, w)
  {
    hide GoesTo;
    if issued != [] {
      RoutedExactly(issued[1..], workers, w, i);
      assert issued == [issued[0]] + issued[1..];
    }
  }

  lemma KeyGoesHome(i: Issued, workers: nat)
    requires workers > 0
    ensures GoesTo(i, workers, i.key % workers)
    ensures forall w :: w != i.key % workers && GoesTo(i, workers, w) ==> i.command.kind == OT_FLUSH && i.key == 0
  {
  }

  lemma {:induction false} OfKeyAppend(a: seq<Issued>, b: seq<Issued>, key: nat)
    ensures OfKey(a + b, key) == OfKey(a, key) + OfKey(b, key)
  {
    if a == [] {
      assert a + b == b;
    } else {
      assert (a + b)[1..] == a[1..] + b;
      OfKeyAppend(a[1..], b, key);
      var first := if a[0].key == key then [a[0]] else [];
      Associative(first, OfKey(a[1..], key), OfKey(b, key));
    }
  }

  /** A flush under key 0 is in every queue exactly where it was issued: in each worker's queue it has
      before it the commands routed there before, and after it those routed there after; so for each key
      the commands of that key before and after it are those issued before and after it. */
  lemma BroadcastSplitsEveryQueue(before: seq<Issued>, flush: Issued, after: seq<Issued>, workers: nat, w: nat,
                                  key: nat)
    requires workers > 0 && flush.command.kind == OT_FLUSH && flush.key == 0
    ensures Routed(before + [flush] + after, workers, w)
         == Routed(before, workers, w) + [flush] + Routed(after, workers, w)
    ensures w == key % workers ==>
      && OfKey(Routed(before, workers, w), key) == OfKey(before, key)
      && OfKey(Routed(after, workers, w), key) == OfKey(after, key)
  {
    RoutedAppend(before + [flush], after, workers, w);
    RoutedOne(before, flush, workers, w);
    KeyStaysTogether(before, workers, key);
    KeyStaysTogether(after, workers, key);
  }
}
