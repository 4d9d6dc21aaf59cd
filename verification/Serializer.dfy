/** A serializer for all messages: what the theorems ask of a schema can be had for every pool of types. */
module Serializer {
  import opened Wrappers
  import opened Decimal
  import opened Messages
  import opened Columns
  import opened CacheModel
  import opened Lines
  import opened WriteThrough

  // ---- Self-delimiting codes ----

  function CodeNat(n: nat): string {
    if n == 0 then "0" else "1" + CodeNat(n - 1)
  }

  function CodeText(s: string): string {
    if s == [] then "0" else "1" + [s[0]] + CodeText(s[1..])
  }

  function Tag(v: Value): char {
    match v
    case IntValue(i) => if i < 0 then 'n' else 'i'
    case RealValue(_) => 'r'
    case TextValue(_) => 't'
    case NestedValue(_) => 'm'
    case ListValue(_) => 'l'
  }

  function Length(v: Value): nat {
    if v.ListValue? then |v.values| else 0
  }

  ghost function Body(v: Value): string
    decreases v, Length(v) + 1
  {
    match v
    case IntValue(i) => CodeNat(if i < 0 then -i else i)
    case RealValue(bits) => CodeNat(bits)
    case TextValue(s) => CodeText(s)
    case NestedValue(m) => CodeMessage(m)
    case ListValue(_) => CodeList(v, 0)
  }

  ghost function CodeValue(v: Value): string
    decreases v, Length(v) + 2
  {
    [Tag(v)] + Body(v)
  }

  /** The code of the values from position `n` on. */
  ghost function CodeList(v: Value, n: nat): string
    requires v.ListValue? && n <= |v.values|
    decreases v, |v.values| - n
  {
    if n == |v.values| then ['0'] + "" else ['1'] + (CodeValue(v.values[n]) + CodeList(v, n + 1))
  }

  ghost function CodeMessage(m: Message): string
    decreases m, |m.fields| + 1
  {
    CodeText(m.typeName) + CodeFields(m, m.fields.Keys)
  }

  ghost function CodeFields(m: Message, names: set<string>): string
    requires names <= m.fields.Keys
    decreases m, |names|
  {
    if names == {} then "0"
    else
      var name :| name in names;
      "1" + (CodeText(name) + (CodeValue(m.fields[name]) + CodeFields(m, names - {name})))
  }

  lemma {:induction false} NatUnique(a: nat, b: nat, s: string, t: string)
    requires CodeNat(a) + s == CodeNat(b) + t
    ensures a == b && s == t
  {
    var x, y := CodeNat(a) + s, CodeNat(b) + t;
    assert x[0] == y[0];
    if a == 0 || b == 0 {
      assert x[1..] == s && y[1..] == t;
    } else {
      assert x[1..] == CodeNat(a - 1) + s && y[1..] == CodeNat(b - 1) + t;
      NatUnique(a - 1, b - 1, s, t);
    }
  }

  lemma {:induction false} TextUnique(a: string, b: string, s: string, t: string)
    requires CodeText(a) + s == CodeText(b) + t
    ensures a == b && s == t
  {
    var x, y := CodeText(a) + s, CodeText(b) + t;
    assert x[0] == y[0];
    if a == [] || b == [] {
      assert x[1..] == s && y[1..] == t;
    } else {
      assert x[1] == a[0] && y[1] == b[0];
      assert x[2..] == CodeText(a[1..]) + s && y[2..] == CodeText(b[1..]) + t;
      TextUnique(a[1..], b[1..], s, t);
    }
  }

  lemma Regroup(a: string, b: string, c: string)
    ensures (a + b) + c == a + (b + c)
  {
  }

  lemma SameHead(c: char, a: string, d: char, b: string, s: string, t: string)
    requires ([c] + a) + s == ([d] + b) + t
    ensures c == d && a + s == b + t
  {
    var x, y := ([c] + a) + s, ([d] + b) + t;
    assert x[0] == c && y[0] == d && x[1..] == a + s && y[1..] == b + t;
  }

  lemma {:induction false} ValueUnique(a: Value, b: Value, s: string, t: string)
    requires CodeValue(a) + s == CodeValue(b) + t
    ensures a == b && s == t
    decreases a, Length(a) + 2
  {
    hide CodeNat, CodeText, CodeMessage, CodeList;
    SameHead(Tag(a), Body(a), Tag(b), Body(b), s, t);
    match a
    case IntValue(i) => NatUnique(if i < 0 then -i else i, if b.i < 0 then -b.i else b.i, s, t);
    case RealValue(bits) => NatUnique(bits, b.bits, s, t);
    case TextValue(text) => TextUnique(text, b.s, s, t);
    case NestedValue(m) => MessageUnique(m, b.m, s, t);
    case ListValue(_) => ListUnique(a, 0, b, 0, s, t);
  }

  lemma {:induction false} ListUnique(a: Value, i: nat, b: Value, j: nat, s: string, t: string)
    requires a.ListValue? && i <= |a.values| && b.ListValue? && j <= |b.values|
    requires CodeList(a, i) + s == CodeList(b, j) + t
    ensures a.values[i..] == b.values[j..] && s == t
    decreases a, |a.values| - i
  {
    hide CodeValue;
    var endA, endB := i == |a.values|, j == |b.values|;
    var restA := if endA then "" else CodeValue(a.values[i]) + CodeList(a, i + 1);
    var restB := if endB then "" else CodeValue(b.values[j]) + CodeList(b, j + 1);
    SameHead(if endA then '0' else '1', restA, if endB then '0' else '1', restB, s, t);
    if endA {
      assert "" + s == s && "" + t == t;
    } else {
      Regroup(CodeValue(a.values[i]), CodeList(a, i + 1), s);
      Regroup(CodeValue(b.values[j]), CodeList(b, j + 1), t);
      ValueUnique(a.values[i], b.values[j], CodeList(a, i + 1) + s, CodeList(b, j + 1) + t);
      ListUnique(a, i + 1, b, j + 1, s, t);
      assert a.values[i..] == [a.values[i]] + a.values[i + 1..];
      assert b.values[j..] == [b.values[j]] + b.values[j + 1..];
    }
  }

  /** Two messages with the same code are the same, whatever follows the code. */
  lemma {:induction false} MessageUnique(a: Message, b: Message, s: string, t: string)
    requires CodeMessage(a) + s == CodeMessage(b) + t
    ensures a == b && s == t
    decreases a, |a.fields| + 1
  {
    hide CodeText, CodeFields;
    var fields, fields' := CodeFields(a, a.fields.Keys), CodeFields(b, b.fields.Keys);
    Regroup(CodeText(a.typeName), fields, s);
    Regroup(CodeText(b.typeName), fields', t);
    TextUnique(a.typeName, b.typeName, fields + s, fields' + t);
    FieldsUnique(a, a.fields.Keys, b, b.fields.Keys, s, t);
    assert a.fields == b.fields;
  }

  /** The code of some fields is that of one of them and then that of the others. */
  lemma FirstField(m: Message, names: set<string>) returns (name: string)
    requires names <= m.fields.Keys && names != {}
    ensures name in names
    ensures CodeFields(m, names)
         == ['1'] + (CodeText(name) + (CodeValue(m.fields[name]) + CodeFields(m, names - {name})))
  {
    hide CodeText, CodeValue;
    name :| name in names && CodeFields(m, names) ==
      "1" + (CodeText(name) + (CodeValue(m.fields[name]) + CodeFields(m, names - {name})));
  }

  lemma NoFields(m: Message)
    ensures CodeFields(m, {}) == ['0'] + ""
  {
  }

  lemma {:induction false} FieldsUnique(a: Message, names: set<string>, b: Message, names': set<string>, s: string,
                                        t: string)
    requires names <= a.fields.Keys && names' <= b.fields.Keys
    requires CodeFields(a, names) + s == CodeFields(b, names') + t
    ensures names == names' && s == t
    ensures forall name :: name in names ==> name in b.fields && a.fields[name] == b.fields[name]
    decreases a, |names|
  {
    hide CodeText, CodeValue, CodeFields;
    NoFields(a);
    NoFields(b);
    if names == {} && names' == {} {
      SameHead('0', "", '0', "", s, t);
      assert "" + s == s && "" + t == t;
    } else if names == {} {
      var n' := FirstField(b, names');
      SameHead('0', "", '1', CodeText(n') + (CodeValue(b.fields[n']) + CodeFields(b, names' - {n'})), s, t);
    } else {
      var n := FirstField(a, names);
      var v, rest := CodeValue(a.fields[n]), CodeFields(a, names - {n});
      if names' == {} {
        SameHead('1', CodeText(n) + (v + rest), '0', "", s, t);
      } else {
        var n' := FirstField(b, names');
        var v', rest' := CodeValue(b.fields[n']), CodeFields(b, names' - {n'});
        SameHead('1', CodeText(n) + (v + rest), '1', CodeText(n') + (v' + rest'), s, t);
        Regroup(CodeText(n), v + rest, s);
        Regroup(CodeText(n'), v' + rest', t);
        Regroup(v, rest, s);
        Regroup(v', rest', t);
        TextUnique(n, n', v + (rest + s), v' + (rest' + t));
        ValueUnique(a.fields[n], b.fields[n'], rest + s, rest' + t);
        FieldsUnique(a, names - {n}, b, names' - {n'}, s, t);
        assert names == names - {n} + {n} && names' == names' - {n'} + {n'};
      }
    }
  }

  // ---- A schema ----

  ghost function ParseCode(name: string, s: string): (r: Option<Message>)
    ensures r.Some? ==> r.value.typeName == name
  {
    if m: Message :| m.typeName == name && CodeMessage(m) == s then Some(m) else None
  }

  lemma ParseCodeIsInverse(m: Message)
    ensures ParseCode(m.typeName, CodeMessage(m)) == Some(m)
  {
    hide CodeMessage;
    var r := ParseCode(m.typeName, CodeMessage(m));
    assert r.Some?;
    MessageUnique(r.value, m, "", "");
  }

  /** The field types that can be both copied and written. */
  ghost predicate StorablePool(pool: map<string, Descriptor>) {
    forall name, f :: name in pool && f in pool[name].fields ==>
      f.presence == Optional && f.kind != Other && (f.kind.Nested? ==> f.kind.how != Unspecified)
  }

  /** The texts of doubles and floats are given. */
  ghost function CodeRuntime(given: Runtime): Runtime {
    given.(serialize := (how, m) => Some(CodeMessage(m)), parse := (how, name, s) => ParseCode(name, s))
  }

  /** A new row has the texts of the defaults. */
  ghost function SchemaFor(pool: map<string, Descriptor>, given: Runtime): Schema
    requires StorablePool(pool)
  {
    var rt := CodeRuntime(given);
    Schema(pool,
           map name | name in pool :: LineOf(rt, Filled(Message(name, map[]), pool[name].fields), pool[name].fields),
           Codec(m => Some(CodeMessage(m)), (name, s) => ParseCode(name, s)), rt)
  }

  /** For every pool of types whose fields can be copied and written, doubles, floats and nested messages
      included, and however doubles and floats are printed and read, there is a schema that meets what the
      theorems ask. */
  lemma TotalSchemaExists(pool: map<string, Descriptor>, given: Runtime)
    requires PoolOk(pool) && StorablePool(pool)
    ensures var sc := SchemaFor(pool, given);
      sc.pool == pool && sc.rt == CodeRuntime(given) && Total(sc) && Invertible(sc.rt)
  {
    hide PoolOk, LineOk, CodecOk, RuntimeOk, CodeMessage, ParseCode, IsMessage, Storable, LineOf, Filled, Invertible;
    var sc := SchemaFor(pool, given);
    forall name | name in pool ensures LineOk(sc, Key(0, name), Blank(sc, name)) {
      BlankIsOk(pool, given, name);
    }
    forall m | IsMessage(sc, m) ensures Storable(sc, m) {
      PoolIsStorable(pool, given, m);
    }
    CodecIsOk(sc, given);
  }

  lemma PoolIsStorable(pool: map<string, Descriptor>, given: Runtime, m: Message)
    requires PoolOk(pool) && StorablePool(pool) && IsMessage(SchemaFor(pool, given), m)
    ensures Storable(SchemaFor(pool, given), m)
  {
    hide CodeMessage, ParseCode, LineOf, Filled;
    var fields := pool[m.typeName].fields;
    forall f | f in fields && f.name in m.fields
      ensures TextOf(CodeRuntime(given), m, fields, f.name).Some?
    {
      FindFieldSelf(fields, f);
    }
  }

  lemma BlankIsOk(pool: map<string, Descriptor>, given: Runtime, name: string)
    requires PoolOk(pool) && StorablePool(pool) && name in pool
    ensures LineOk(SchemaFor(pool, given), Key(0, name), Blank(SchemaFor(pool, given), name))
  {
    var sc, empty := SchemaFor(pool, given), Message(name, map[]);
    assert IsMessage(sc, empty);
    hide PoolOk, CodeMessage, ParseCode, IsMessage, Storable, LineOf, Filled, Whole, Print, HasKind;
    var filled := Filled(empty, FieldsOf(sc, name));
    FilledTyped(sc, empty);
    FilledPrimary(sc, empty);
    PoolIsStorable(pool, given, filled);
    if Keyed(sc, name) {
      WholeLine(sc, filled);
    } else {
      WholeNames(sc, filled);
    }
  }

  lemma WholeNames(sc: Schema, m: Message)
    requires IsMessage(sc, m) && Whole(sc, m) && Storable(sc, m)
    ensures Written(sc, m).Keys == FieldNames(FieldsOf(sc, m.typeName))
  {
    hide IsMessage, Storable, Written;
    WrittenKeys(sc, m);
  }

  lemma CodecIsOk(sc: Schema, given: Runtime)
    requires sc.codec == Codec(m => Some(CodeMessage(m)), (name, s) => ParseCode(name, s))
    requires sc.rt == CodeRuntime(given)
    ensures CodecOk(sc.codec) && RuntimeOk(sc.rt) && Invertible(sc.rt)
    ensures forall m: Message :: sc.codec.serialize(m).Some?
  {
    hide CodeMessage, ParseCode;
    forall m: Message ensures ParseCode(m.typeName, CodeMessage(m)) == Some(m) {
      ParseCodeIsInverse(m);
    }
  }
}
