/** Filling the numbered holes of a where clause, one find-and-replace after the other. */
module Placeholders {
  import opened Wrappers
  import opened Decimal
  import Statements

  const RC_SQLPARM_ERROR: nat := 4

  /** The first occurrence of `pattern`. */
  function Find(s: string, pattern: string): (r: Option<nat>)
    requires pattern != []
    ensures r.Some? ==> r.value + |pattern| <= |s| && s[r.value..r.value + |pattern|] == pattern
  {
    if pattern <= s then Some(0)
    else if s == [] then None
    else
      var p :- Find(s[1..], pattern);
      assert s[p + 1..p + 1 + |pattern|] == s[1..][p..p + |pattern|];
      Some(p + 1)
  }

  function HoleText(i: nat): (s: string)
    ensures s != []
  {
    "{" + Digits(i) + "}"
  }

  function ReplaceAt(s: string, p: nat, n: nat, text: string): string
    requires p + n <= |s|
  {
    s[..p] + text + s[p + n..]
  }

  /** Replaces the leftmost hole of index `i`. */
  function ReplaceHole(s: string, i: nat, text: string): Option<string> {
    match Find(s, HoleText(i))
    case None => None
    case Some(p) => Some(ReplaceAt(s, p, |HoleText(i)|, text))
  }

  datatype Filling = Filling(index: nat, text: string)

  /** One replacement after the other; fails when a hole is missing. */
  function FillInTurn(s: string, fillings: seq<Filling>): Option<string>
    decreases |fillings|
  {
    if fillings == [] then Some(s)
    else
      var next :- ReplaceHole(s, fillings[0].index, fillings[0].text);
      FillInTurn(next, fillings[1..])
  }

  function Numbered(args: seq<string>, escape: string -> string, from: nat): (f: seq<Filling>)
    ensures |f| == |args| && forall k :: 0 <= k < |f| ==> f[k] == Filling(from + k, escape(args[k]))
  {
    if args == [] then [] else [Filling(from, escape(args[0]))] + Numbered(args[1..], escape, from + 1)
  }

  function QueryText(table: string, clause: Option<string>): Result<string, nat> {
    match clause
    case None => Err(RC_SQLPARM_ERROR)
    case Some(c) => Ok("select * from " + table + if c == "" then "" else " where " + c)
  }

  /** The query handler's statement. */
  method BuildQuery(table: string, whereClause: string, args: seq<string>, escape: string -> string)
    returns (sql: Result<string, nat>)
    ensures sql == QueryText(table, FillInTurn(whereClause, Numbered(args, escape, 0)))
  {
    hide Find, FillInTurn, Numbered;
    var clause := whereClause;
    assert args[0..] == args;
    for i := 0 to |args|
      invariant FillInTurn(whereClause, Numbered(args, escape, 0)) == FillInTurn(clause, Numbered(args[i..], escape, i))
    {
      NextFilling(clause, args, escape, i);
      var safe := escape(args[i]);
      var hole := "{" + Digits(i) + "}";
      var pos := Find(clause, hole);
      if pos == None {
        return Err(RC_SQLPARM_ERROR);
      }
      clause := ReplaceAt(clause, pos.value, |hole|, safe);
    }
    NoMoreFillings(clause, args, escape);
    sql := Ok("select * from " + table + if clause == "" then "" else " where " + clause);
  }

  lemma NoMoreFillings(clause: string, args: seq<string>, escape: string -> string)
    ensures FillInTurn(clause, Numbered(args[|args|..], escape, |args|)) == Some(clause)
  {
  }

  lemma NextFilling(clause: string, args: seq<string>, escape: string -> string, i: nat)
    requires i < |args|
    ensures FillInTurn(clause, Numbered(args[i..], escape, i)) ==
      match ReplaceHole(clause, i, escape(args[i])) {
        case None => None
        case Some(next) => FillInTurn(next, Numbered(args[i + 1..], escape, i + 1))
      }
  {
    assert args[i..][1..] == args[i + 1..];
    assert Numbered(args[i..], escape, i)[1..] == Numbered(args[i + 1..], escape, i + 1);
  }

  // ---- Templates ----

  datatype Piece = Text(s: string) | Hole(i: nat)

  function PieceText(p: Piece): string {
    match p
    case Text(s) => s
    case Hole(i) => HoleText(i)
  }

  function Render(t: seq<Piece>): string {
    if t == [] then "" else PieceText(t[0]) + Render(t[1..])
  }

  ghost predicate Plain(s: string) {
    '{' !in s
  }

  ghost predicate IsTemplate(t: seq<Piece>) {
    forall p :: p in t && p.Text? ==> Plain(p.s)
  }

  /** The leftmost hole of every index in `texts` filled, in one pass from left to right. */
  function FillAtOnce(t: seq<Piece>, texts: map<nat, string>): seq<Piece> {
    if t == [] then []
    else if t[0].Hole? && t[0].i in texts then [Text(texts[t[0].i])] + FillAtOnce(t[1..], texts - {t[0].i})
    else [t[0]] + FillAtOnce(t[1..], texts)
  }

  function TextsOf(fillings: seq<Filling>): map<nat, string> {
    if fillings == [] then map[] else TextsOf(fillings[1..])[fillings[0].index := fillings[0].text]
  }

  ghost predicate DistinctIndices(fillings: seq<Filling>) {
    forall j, k :: 0 <= j < k < |fillings| ==> fillings[j].index != fillings[k].index
  }

  /** The leftmost hole of index `i` filled. */
  function FillOne(t: seq<Piece>, i: nat, text: string): seq<Piece> {
    if t == [] then []
    else if t[0] == Hole(i) then [Text(text)] + t[1..]
    else [t[0]] + FillOne(t[1..], i, text)
  }

  lemma {:induction false} FindPastText(s: string, rest: string, i: nat)
    requires '{' !in s
    ensures Find(s + rest, HoleText(i)) ==
      match Find(rest, HoleText(i)) { case None => None case Some(p) => Some(|s| + p) }
  {
    hide HoleText, Find;
    HoleShape(i);
    if s == [] {
      assert s + rest == rest;
    } else {
      assert s[0] in s && s[0] == (s + rest)[0];
      assert (s + rest)[1..] == s[1..] + rest;
      FindTail(s + rest, HoleText(i));
      FindPastText(s[1..], rest, i);
    }
  }

  lemma {:induction false} SameDigits(a: string, b: string, rest: string)
    requires forall k :: 0 <= k < |a| ==> IsDigit(a[k])
    requires forall k :: 0 <= k < |b| ==> IsDigit(b[k])
    requires a + "}" <= b + ("}" + rest)
    ensures a == b
  {
    var x, y := a + "}", b + ("}" + rest);
    assert x[0] == y[0];
    if a != [] && b != [] {
      assert x[1..] == a[1..] + "}" && y[1..] == b[1..] + ("}" + rest) && x[1..] <= y[1..];
      SameDigits(a[1..], b[1..], rest);
    }
  }

  lemma HolesDiffer(i: nat, j: nat, rest: string)
    requires HoleText(i) <= HoleText(j) + rest
    ensures i == j
  {
    var x, y := HoleText(i), HoleText(j) + rest;
    assert x[1..] == Digits(i) + "}" && y[1..] == Digits(j) + ("}" + rest) && x[1..] <= y[1..];
    SameDigits(Digits(i), Digits(j), rest);
    DigitsInjective(i, j);
  }

  // ---- Any template, any texts ----

  /** What stands before the leftmost hole of index `i`. */
  function Ahead(t: seq<Piece>, i: nat): string
    requires Hole(i) in t
  {
    if t[0] == Hole(i) then "" else PieceText(t[0]) + Ahead(t[1..], i)
  }

  function Behind(t: seq<Piece>, i: nat): string
    requires Hole(i) in t
  {
    if t[0] == Hole(i) then Render(t[1..]) else Behind(t[1..], i)
  }

  lemma {:induction false} AroundHole(t: seq<Piece>, i: nat, text: string)
    requires Hole(i) in t
    ensures Render(t) == Ahead(t, i) + (HoleText(i) + Behind(t, i))
    ensures Render(FillOne(t, i, text)) == Ahead(t, i) + (text + Behind(t, i))
  {
    hide HoleText;
    if t[0] == Hole(i) {
      assert FillOne(t, i, text)[1..] == t[1..];
    } else {
      AroundHole(t[1..], i, text);
      assert FillOne(t, i, text)[1..] == FillOne(t[1..], i, text);
      var head, ahead := PieceText(t[0]), Ahead(t[1..], i);
      Concatenate(head, ahead, HoleText(i) + Behind(t[1..], i));
      Concatenate(head, ahead, text + Behind(t[1..], i));
    }
  }

  lemma Concatenate(a: string, b: string, c: string)
    ensures a + (b + c) == (a + b) + c
  {
  }

  /** A hole's text is found at its place exactly when it does not occur before: an occurrence cannot reach
      into the hole, as it would have to contain the hole's opening brace. */
  lemma {:induction false} FindBefore(pre: string, rest: string, i: nat)
    ensures Find(pre + (HoleText(i) + rest), HoleText(i)) ==
      match Find(pre, HoleText(i)) { case None => Some(|pre|) case Some(p) => Some(p) }
  {
    hide HoleText;
    var hole := HoleText(i);
    var s := pre + (hole + rest);
    HoleShape(i);
    if pre == [] {
      assert s == hole + rest;
    } else {
      StartsBefore(pre, hole, rest);
      assert s[1..] == pre[1..] + (hole + rest);
      FindBefore(pre[1..], rest, i);
    }
  }

  lemma StartsBefore(pre: string, hole: string, rest: string)
    requires hole != [] && hole[0] !in hole[1..] && pre != []
    ensures hole <= pre + (hole + rest) <==> hole <= pre
  {
    var s := pre + (hole + rest);
    assert s[|pre|] == hole[0] && s[..|pre|] == pre;
    if |hole| > |pre| {
      assert hole[|pre|] in hole[1..];
    } else {
      assert s[..|hole|] == pre[..|hole|];
    }
  }

  /** Finding and replacing hits the template's own leftmost hole exactly when its text does not occur before
      it, and then fills it. */
  lemma ReplaceHits(t: seq<Piece>, i: nat, text: string)
    requires Hole(i) in t
    ensures Find(Render(t), HoleText(i)) == Some(|Ahead(t, i)|) <==> Find(Ahead(t, i), HoleText(i)) == None
    ensures Find(Ahead(t, i), HoleText(i)) == None ==>
      ReplaceHole(Render(t), i, text) == Some(Render(FillOne(t, i, text)))
  {
    AroundHole(t, i, text);
    hide Find, HoleText, Render;
    FindBefore(Ahead(t, i), Behind(t, i), i);
    ReplaceMiddle(Ahead(t, i), HoleText(i), Behind(t, i), text);
  }

  lemma ReplaceMiddle(pre: string, hole: string, rest: string, text: string)
    ensures ReplaceAt(pre + (hole + rest), |pre|, |hole|, text) == pre + (text + rest)
  {
    var s := pre + (hole + rest);
    assert s[..|pre|] == pre && s[|pre| + |hole|..] == rest;
  }

  /** Each replacement of the loop hits the template's own leftmost hole of its index. */
  ghost predicate HitsOwn(t: seq<Piece>, fillings: seq<Filling>)
    decreases |fillings|
  {
    fillings == [] ||
    var f := fillings[0];
    && Hole(f.index) in t
    && Find(Render(t), HoleText(f.index)) == Some(|Ahead(t, f.index)|)
    && HitsOwn(FillOne(t, f.index, f.text), fillings[1..])
  }

  /** Filling k has a hole, and what stands before it, with the earlier fillings put in, does not contain the
      hole's text. */
  ghost predicate Undisturbed(t: seq<Piece>, fillings: seq<Filling>, k: nat)
    requires k < |fillings|
  {
    var i, here := fillings[k].index, FillAtOnce(t, TextsOf(fillings[..k]));
    Hole(i) in here && Find(Ahead(here, i), HoleText(i)) == None
  }

  /** For every template and all texts: the loop hits the template's own holes throughout exactly when every
      filling is undisturbed, and then it is simultaneous substitution. */
  lemma {:induction false} InTurnExactly(t: seq<Piece>, fillings: seq<Filling>)
    requires DistinctIndices(fillings)
    ensures HitsOwn(t, fillings) <==> AllUndisturbed(t, fillings)
    ensures HitsOwn(t, fillings) ==> FillInTurn(Render(t), fillings) == Some(Render(FillAtOnce(t, TextsOf(fillings))))
    decreases |fillings|
  {
    hide Find, HoleText, Render, ReplaceHole, Undisturbed;
    FillNothing(t);
    if fillings != [] {
      var f, rest := fillings[0], fillings[1..];
      FirstUndisturbed(t, fillings);
      if Hole(f.index) in t {
        var t' := FillOne(t, f.index, f.text);
        ReplaceHits(t, f.index, f.text);
        InTurnExactly(t', rest);
        FirstThenRest(t, fillings);
        RestUndisturbed(t, fillings);
      }
    }
  }

  ghost predicate AllUndisturbed(t: seq<Piece>, fillings: seq<Filling>) {
    forall k :: 0 <= k < |fillings| ==> Undisturbed(t, fillings, k)
  }

  lemma RestUndisturbed(t: seq<Piece>, fillings: seq<Filling>)
    requires DistinctIndices(fillings) && fillings != [] && Hole(fillings[0].index) in t
    ensures AllUndisturbed(t, fillings) <==>
      && Undisturbed(t, fillings, 0)
      && AllUndisturbed(FillOne(t, fillings[0].index, fillings[0].text), fillings[1..])
  {
    hide Undisturbed, FillOne;
    var t', rest := FillOne(t, fillings[0].index, fillings[0].text), fillings[1..];
    forall k | 0 <= k < |rest| ensures Undisturbed(t', rest, k) <==> Undisturbed(t, fillings, k + 1) {
      LaterUndisturbed(t, fillings, k);
    }
    if AllUndisturbed(t, fillings) {
      assert forall k :: 0 <= k < |rest| ==> Undisturbed(t, fillings, k + 1) ==> Undisturbed(t', rest, k);
      assert AllUndisturbed(t', rest);
    }
    if Undisturbed(t, fillings, 0) && AllUndisturbed(t', rest) {
      forall k | 0 <= k < |fillings| ensures Undisturbed(t, fillings, k) {
        if k > 0 {
          assert Undisturbed(t', rest, k - 1);
        }
      }
    }
  }

  lemma FirstUndisturbed(t: seq<Piece>, fillings: seq<Filling>)
    requires fillings != []
    ensures var i := fillings[0].index;
      Undisturbed(t, fillings, 0) <==> Hole(i) in t && Find(Ahead(t, i), HoleText(i)) == None
  {
    assert fillings[..0] == [];
    FillNothing(t);
  }

  lemma LaterUndisturbed(t: seq<Piece>, fillings: seq<Filling>, k: nat)
    requires DistinctIndices(fillings) && k + 1 < |fillings| && Hole(fillings[0].index) in t
    ensures Undisturbed(FillOne(t, fillings[0].index, fillings[0].text), fillings[1..], k)
      <==> Undisturbed(t, fillings, k + 1)
  {
    var front := fillings[..k + 1];
    assert front[1..] == fillings[1..][..k];
    FirstThenRest(t, front);
    hide FillAtOnce, TextsOf, Find, HoleText, Ahead;
  }

  // ---- Texts without an opening brace ----

  /** On the text of a template, finding and replacing a hole fills the template's leftmost one. */
  lemma {:induction false} ReplaceFills(t: seq<Piece>, i: nat, text: string)
    requires IsTemplate(t)
    ensures ReplaceHole(Render(t), i, text) == if Hole(i) in t then Some(Render(FillOne(t, i, text))) else None
  {
    ReplaceInNothing(i, text);
    hide Find, HoleText, ReplaceHole;
    if t != [] {
      var rest := Render(t[1..]);
      if t[0] == Hole(i) {
        ReplaceAtFront(i, text, rest);
        assert FillOne(t, i, text)[1..] == t[1..];
      } else {
        assert t == [t[0]] + t[1..];
        ReplaceFills(t[1..], i, text);
        ReplacePastPiece(t[0], rest, i, text);
        assert FillOne(t, i, text)[1..] == FillOne(t[1..], i, text);
      }
    }
  }

  lemma ReplaceInNothing(i: nat, text: string)
    ensures ReplaceHole("", i, text) == None
  {
  }

  lemma ReplacePastPiece(piece: Piece, rest: string, i: nat, text: string)
    requires piece != Hole(i) && (piece.Text? ==> Plain(piece.s))
    ensures ReplaceHole(PieceText(piece) + rest, i, text) ==
      match ReplaceHole(rest, i, text) { case None => None case Some(r) => Some(PieceText(piece) + r) }
  {
    FindPastPiece(piece, rest, i);
    hide Find, HoleText, PieceText, ReplaceAt;
    var p := Find(rest, HoleText(i));
    if p.Some? {
      ReplacePast(PieceText(piece), rest, p.value, |HoleText(i)|, text);
    }
  }

  lemma ReplacePast(head: string, rest: string, p: nat, n: nat, text: string)
    requires p + n <= |rest|
    ensures ReplaceAt(head + rest, |head| + p, n, text) == head + ReplaceAt(rest, p, n, text)
  {
    assert (head + rest)[..|head| + p] == head + rest[..p];
    assert (head + rest)[|head| + p + n..] == rest[p + n..];
  }

  lemma FindTail(s: string, pattern: string)
    requires pattern != [] && s != [] && !(pattern <= s)
    ensures Find(s, pattern) == match Find(s[1..], pattern) { case None => None case Some(p) => Some(p + 1) }
  {
  }

  lemma HoleShape(i: nat)
    ensures HoleText(i)[0] == '{' && '{' !in HoleText(i)[1..]
  {
    assert HoleText(i)[1..] == Digits(i) + "}";
  }

  lemma FindPastPiece(piece: Piece, rest: string, i: nat)
    requires piece != Hole(i) && (piece.Text? ==> Plain(piece.s))
    ensures Find(PieceText(piece) + rest, HoleText(i)) ==
      match Find(rest, HoleText(i)) { case None => None case Some(p) => Some(|PieceText(piece)| + p) }
  {
    hide Find, HoleText;
    match piece
    case Text(s) => FindPastText(s, rest, i);
    case Hole(j) =>
      var head := HoleText(j);
      if HoleText(i) <= head + rest {
        HolesDiffer(i, j, rest);
      } else {
        HoleShape(j);
        FindTail(head + rest, HoleText(i));
        assert (head + rest)[1..] == head[1..] + rest;
        FindPastText(head[1..], rest, i);
      }
  }

  lemma {:induction false} FillOneKeeps(t: seq<Piece>, i: nat, text: string)
    requires IsTemplate(t) && Plain(text)
    ensures IsTemplate(FillOne(t, i, text))
    ensures forall j :: j != i ==> (Hole(j) in FillOne(t, i, text) <==> Hole(j) in t)
  {
    if t != [] && t[0] != Hole(i) {
      assert t == [t[0]] + t[1..];
      FillOneKeeps(t[1..], i, text);
    }
  }

  /** Filling one hole first and the others in one pass is filling all in one pass. */
  lemma {:induction false} FillOneThenRest(t: seq<Piece>, i: nat, texts: map<nat, string>)
    requires i in texts && Hole(i) in t
    ensures FillAtOnce(FillOne(t, i, texts[i]), texts - {i}) == FillAtOnce(t, texts)
  {
    if t[0] != Hole(i) {
      assert t == [t[0]] + t[1..];
      if t[0].Hole? && t[0].i in texts {
        FillOneThenRest(t[1..], i, texts - {t[0].i});
        assert texts - {i} - {t[0].i} == texts - {t[0].i} - {i};
      } else {
        FillOneThenRest(t[1..], i, texts);
      }
    }
  }

  lemma {:induction false} FillNothing(t: seq<Piece>)
    ensures FillAtOnce(t, map[]) == t
  {
    if t != [] {
      FillNothing(t[1..]);
    }
  }

  lemma {:induction false} TextsOfKeys(fillings: seq<Filling>)
    ensures forall i :: i in TextsOf(fillings) <==> exists k :: 0 <= k < |fillings| && fillings[k].index == i
    ensures DistinctIndices(fillings) ==>
      forall k :: 0 <= k < |fillings| ==>
        fillings[k].index in TextsOf(fillings) && TextsOf(fillings)[fillings[k].index] == fillings[k].text
  {
    if fillings != [] {
      TextsOfKeys(fillings[1..]);
      forall i | exists k :: 0 <= k < |fillings| && fillings[k].index == i ensures i in TextsOf(fillings) {
        var k :| 0 <= k < |fillings| && fillings[k].index == i;
        if k > 0 {
          assert fillings[1..][k - 1].index == i;
        }
      }
    }
  }

  ghost predicate AllHaveHoles(t: seq<Piece>, fillings: seq<Filling>) {
    forall f :: f in fillings ==> Hole(f.index) in t
  }

  /** On a template, with texts that have no opening brace, replacing in turn is simultaneous substitution
      when every index has a hole, and fails otherwise. */
  lemma {:induction false} InTurnIsAtOnce(t: seq<Piece>, fillings: seq<Filling>)
    requires IsTemplate(t) && DistinctIndices(fillings) && forall f :: f in fillings ==> Plain(f.text)
    ensures FillInTurn(Render(t), fillings) ==
      if AllHaveHoles(t, fillings) then Some(Render(FillAtOnce(t, TextsOf(fillings)))) else None
    decreases |fillings|
  {
    if fillings == [] {
      FillNothing(t);
    } else {
      var f, rest := fillings[0], fillings[1..];
      assert fillings == [f] + rest;
      ReplaceFills(t, f.index, f.text);
      if Hole(f.index) in t {
        var t' := FillOne(t, f.index, f.text);
        FillOneKeeps(t, f.index, f.text);
        InTurnIsAtOnce(t', rest);
        FirstThenRest(t, fillings);
        OtherHolesRemain(t, fillings);
      }
    }
  }

  lemma FirstThenRest(t: seq<Piece>, fillings: seq<Filling>)
    requires fillings != [] && DistinctIndices(fillings) && Hole(fillings[0].index) in t
    ensures FillAtOnce(FillOne(t, fillings[0].index, fillings[0].text), TextsOf(fillings[1..]))
         == FillAtOnce(t, TextsOf(fillings))
  {
    var f, rest := fillings[0], fillings[1..];
    TextsOfKeys(rest);
    assert f.index !in TextsOf(rest);
    assert TextsOf(fillings) - {f.index} == TextsOf(rest);
    FillOneThenRest(t, f.index, TextsOf(fillings));
  }

  lemma OtherHolesRemain(t: seq<Piece>, fillings: seq<Filling>)
    requires fillings != [] && DistinctIndices(fillings) && Hole(fillings[0].index) in t
    requires IsTemplate(t) && Plain(fillings[0].text)
    ensures AllHaveHoles(FillOne(t, fillings[0].index, fillings[0].text), fillings[1..]) <==> AllHaveHoles(t, fillings)
  {
    var f, rest := fillings[0], fillings[1..];
    FillOneKeeps(t, f.index, f.text);
    assert fillings == [f] + rest;
  }

  /** The order of the arguments does not matter. */
  lemma AnyOrder(t: seq<Piece>, a: seq<Filling>, b: seq<Filling>)
    requires IsTemplate(t) && DistinctIndices(a) && DistinctIndices(b)
    requires forall f :: f in a <==> f in b
    requires forall f :: f in a ==> Plain(f.text)
    ensures FillInTurn(Render(t), a) == FillInTurn(Render(t), b)
  {
    InTurnIsAtOnce(t, a);
    InTurnIsAtOnce(t, b);
    TextsOfKeys(a);
    TextsOfKeys(b);
    SameTexts(a, b);
  }

  lemma SameTexts(a: seq<Filling>, b: seq<Filling>)
    requires DistinctIndices(a) && DistinctIndices(b) && forall f :: f in a <==> f in b
    ensures TextsOf(a) == TextsOf(b)
  {
    TextsOfKeys(a);
    TextsOfKeys(b);
    hide TextsOf;
    forall i | i in TextsOf(a) ensures i in TextsOf(b) && TextsOf(b)[i] == TextsOf(a)[i] {
      var k :| 0 <= k < |a| && a[k].index == i;
      assert a[k] in b;
      var j :| 0 <= j < |b| && b[j] == a[k];
    }
    forall i | i in TextsOf(b) ensures i in TextsOf(a) {
      var k :| 0 <= k < |b| && b[k].index == i;
      assert b[k] in a;
    }
  }

  /** Argument k is the text for index k. */
  function ArgTexts(args: seq<string>, escape: string -> string): map<nat, string> {
    map k | 0 <= k < |args| :: escape(args[k])
  }

  /** The handler's outcome: a parameter error exactly when some argument has no hole, otherwise the
      template with argument k in the leftmost hole k, for all k at once. */
  lemma QueryOutcome(t: seq<Piece>, args: seq<string>, escape: string -> string)
    requires IsTemplate(t) && forall k :: 0 <= k < |args| ==> Plain(escape(args[k]))
    ensures FillInTurn(Render(t), Numbered(args, escape, 0)) ==
      if forall k :: 0 <= k < |args| ==> Hole(k) in t
      then Some(Render(FillAtOnce(t, ArgTexts(args, escape)))) else None
  {
    var fillings := Numbered(args, escape, 0);
    InTurnIsAtOnce(t, fillings);
    NumberedTexts(args, escape);
    hide Find, FillInTurn, FillAtOnce, Render;
    if AllHaveHoles(t, fillings) {
      forall k | 0 <= k < |args| ensures Hole(k) in t { assert fillings[k] in fillings; }
    }
  }

  lemma NumberedTexts(args: seq<string>, escape: string -> string)
    ensures TextsOf(Numbered(args, escape, 0)) == ArgTexts(args, escape)
  {
    hide TextsOf, Numbered;
    var fillings := Numbered(args, escape, 0);
    assert DistinctIndices(fillings);
    TextsOfKeys(fillings);
    var texts := TextsOf(fillings);
    forall k | 0 <= k < |args| ensures k in texts && texts[k] == escape(args[k]) {
      assert fillings[k] == Filling(k, escape(args[k]));
    }
    forall i | i in texts ensures 0 <= i < |args| {
      var k :| 0 <= k < |fillings| && fillings[k].index == i;
    }
  }

  datatype Selected = Selected(table: string, clause: string)

  /** Takes a query apart. */
  function ReadQuery(sql: string): Option<Selected> {
    var s :- Statements.Skip("select * from ", sql);
    var table := Statements.ReadToken(s);
    if table.rest == "" then Some(Selected(table.value, ""))
    else
      var clause :- Statements.Skip(" where ", table.rest);
      Some(Selected(table.value, clause))
  }

  /** The handler's statement reads back as its table and the template with every argument in its hole; without a
      hole for some argument there is no statement, but the parameter error. */
  lemma QueryReadsBack(table: string, t: seq<Piece>, args: seq<string>, escape: string -> string)
    requires Statements.IsToken(table)
    requires IsTemplate(t) && forall k :: 0 <= k < |args| ==> Plain(escape(args[k]))
    ensures var sql := QueryText(table, FillInTurn(Render(t), Numbered(args, escape, 0)));
      && (sql.Ok? <==> forall k :: 0 <= k < |args| ==> Hole(k) in t)
      && (sql.Ok? ==> ReadQuery(sql.value) == Some(Selected(table, Render(FillAtOnce(t, ArgTexts(args, escape))))))
      && (sql.Err? ==> sql.error == 4)
  {
    hide Numbered, FillInTurn, FillAtOnce, ArgTexts, Render, IsTemplate;
    QueryOutcome(t, args, escape);
    if forall k :: 0 <= k < |args| ==> Hole(k) in t {
      QueryTextReadsBack(table, Render(FillAtOnce(t, ArgTexts(args, escape))));
    }
  }

  lemma QueryTextReadsBack(table: string, clause: string)
    requires Statements.IsToken(table)
    ensures QueryText(table, Some(clause)).Ok?
    ensures ReadQuery(QueryText(table, Some(clause)).value) == Some(Selected(table, clause))
  {
    hide Statements.ReadToken;
    var rest := if clause == "" then "" else " where " + clause;
    var sql := QueryText(table, Some(clause)).value;
    assert sql == "select * from " + (table + rest);
    assert sql[|"select * from "|..] == table + rest;
    Statements.ReadTokenBack(table, rest);
    if clause != "" {
      assert rest[|" where "|..] == clause;
    }
  }

  /** With braces in an argument the replacements interfere: the second finds the hole that the first
      brought in, while one pass leaves it alone. */
  lemma BracesInterfere()
    ensures var t, fillings := [Hole(0), Hole(1)], [Filling(0, "{1}"), Filling(1, "x")];
      FillInTurn(Render(t), fillings) == Some("x{1}") && Render(FillAtOnce(t, TextsOf(fillings))) == "{1}x"
  {
    var t, fillings := [Hole(0), Hole(1)], [Filling(0, "{1}"), Filling(1, "x")];
    hide HoleText, Find, ReplaceHole;
    InTurnInterferes(fillings);
    HoleOne();
    assert t[1..] == [Hole(1)] && Render(t) == HoleText(0) + HoleText(1);
    AtOnceLeaves(t, fillings);
  }

  lemma AtOnceLeaves(t: seq<Piece>, fillings: seq<Filling>)
    requires t == [Hole(0), Hole(1)] && fillings == [Filling(0, "{1}"), Filling(1, "x")]
    ensures Render(FillAtOnce(t, TextsOf(fillings))) == "{1}x"
  {
    assert t[1..] == [Hole(1)] && fillings[1..] == [Filling(1, "x")];
    assert t[1..][1..] == [] && fillings[1..][1..] == [];
    assert TextsOf(fillings[1..]) == map[1 := "x"];
    assert TextsOf(fillings) == map[0 := "{1}", 1 := "x"];
    assert FillAtOnce(t[1..], TextsOf(fillings) - {0}) == [Text("x")];
    var filled := FillAtOnce(t, TextsOf(fillings));
    assert filled == [Text("{1}"), Text("x")];
    assert filled[1..] == [Text("x")] && filled[1..][1..] == [];
    assert Render(filled[1..]) == "x" && "{1}" + "x" == "{1}x";
  }

  lemma InTurnInterferes(fillings: seq<Filling>)
    requires fillings == [Filling(0, "{1}"), Filling(1, "x")]
    ensures FillInTurn(HoleText(0) + HoleText(1), fillings) == Some("x{1}")
  {
    hide ReplaceHole, HoleText, Find;
    ReplaceAtFront(0, "{1}", HoleText(1));
    ReplaceAtFront(1, "x", HoleText(1));
    HoleOne();
    var last := fillings[1..];
    assert last == [Filling(1, "x")] && last[1..] == [] && "x" + "{1}" == "x{1}";
    assert FillInTurn(HoleText(1) + HoleText(1), last) == FillInTurn("x{1}", []);
  }

  lemma HoleOne()
    ensures HoleText(1) == "{1}"
  {
    assert Digits(1) == "1";
  }

  lemma ReplaceAtFront(i: nat, text: string, rest: string)
    ensures ReplaceHole(HoleText(i) + rest, i, text) == Some(text + rest)
  {
    var s := HoleText(i) + rest;
    assert HoleText(i) <= s && s[|HoleText(i)|..] == rest && s[..0] + text == text;
  }
}
