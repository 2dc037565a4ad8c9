/** Conversion between Lua tables and JSON trees. */
module Converter {
  import opened Text

  /** A decoded JSON tree; numbers are carried over unchanged. */
  datatype Json =
    | Null
    | Number(number: real)
    | String(text: string)
    | Bool(truth: bool)
    | Array(items: seq<Json>)
    | Object(members: map<string, Json>)

  /** A Lua value; Foreign stands for functions, threads and user data.
      A nil in the sequence part is a hole, which a traversal skips. */
  datatype Lua =
    | Nil
    | LNumber(number: real)
    | LString(text: string)
    | LBool(truth: bool)
    | Table(list: seq<Lua>, fields: map<string, Lua>)
    | Foreign

  // ---------- what the conversions compute ----------

  /** The values of the sequence part that a traversal visits. */
  function Visited(list: seq<Lua>): (r: seq<Lua>)
    ensures forall x <- r :: x in list && x != Nil
  {
    if |list| == 0 then []
    else Visited(list[..|list| - 1]) + (if list[|list| - 1] == Nil then [] else [list[|list| - 1]])
  }

  predicate IsList(v: Lua) {
    v.Table? && forall k <- v.fields :: v.fields[k] == Nil
  }

  function Positions(list: seq<Lua>): set<string> {
    set i | 0 <= i < |list| && list[i] != Nil :: NatText(i + 1)
  }

  function Named(fields: map<string, Lua>): set<string> {
    set k | k in fields && fields[k] != Nil
  }

  lemma PositionRead(list: seq<Lua>, k: string)
    requires k in Positions(list)
    ensures AllDigits(k) && 1 <= NatValue(k) <= |list| && k == NatText(NatValue(k))
  {
    var i :| 0 <= i < |list| && k == NatText(i + 1);
    NatTextValue(i + 1);
  }

  function AtPosition(list: seq<Lua>, k: string): (x: Lua)
    requires k in Positions(list)
    ensures x in list
  {
    PositionRead(list, k);
    list[NatValue(k) - 1]
  }

  /** The traversal visits the sequence part first, so a string key wins over the position of the same text. */
  function Marshal(v: Lua): Json {
    match v
    case Nil => Null
    case Foreign => Null
    case LNumber(n) => Number(n)
    case LString(s) => String(s)
    case LBool(b) => Bool(b)
    case Table(list, fields) =>
      if IsList(v) then
        var items := Visited(list);
        Array(seq(|items|, i requires 0 <= i < |items| => assert items[i] in list; Marshal(items[i])))
      else
        Object(map k | k in Named(fields) + Positions(list) ::
          if k in Named(fields) then Marshal(fields[k]) else Marshal(AtPosition(list, k)))
  }

  /** Storing nil under a string key stores nothing. */
  function Unmarshal(j: Json): (v: Lua)
    ensures v == Nil <==> j == Null
  {
    match j
    case Null => Nil
    case Number(n) => LNumber(n)
    case String(s) => LString(s)
    case Bool(b) => LBool(b)
    case Array(items) => Table(seq(|items|, i requires 0 <= i < |items| => Unmarshal(items[i])), map[])
    case Object(members) => Table([], map k | k in members && members[k] != Null :: Unmarshal(members[k]))
  }

  // ---------- the conversions themselves ----------

  method CheckList(v: Lua) returns (b: bool)
    ensures b == IsList(v)
  {
    b := false;
    if v.Table? {
      b := true;
      var todo := v.fields.Keys;
      while todo != {}
        invariant todo <= v.fields.Keys
        invariant b <==> forall k <- v.fields.Keys - todo :: v.fields[k] == Nil
        decreases |todo|
      {
        var k :| k in todo;
        if v.fields[k] != Nil {
          b := false;
        }
        todo := todo - {k};
      }
    }
  }

  method MarshalValue(v: Lua) returns (j: Json)
    ensures j == Marshal(v)
    ensures match v
      case LNumber(n) => j == Number(n)
      case LString(s) => j == String(s)
      case LBool(b) => j == Bool(b)
      case Table(_, fields) => j.Array? <==> forall k <- fields :: fields[k] == Nil
      case _ => j == Null
    decreases v
  {
    match v
    case Nil => j := Null;
    case Foreign => j := Null;
    case LNumber(n) => j := Number(n);
    case LString(s) => j := String(s);
    case LBool(b) => j := Bool(b);
    case Table(list, fields) =>
      var isList := CheckList(v);
      if isList {
        j := MarshalItems(v);
      } else {
        j := MarshalMembers(v);
      }
  }

  method MarshalItems(v: Lua) returns (j: Json)
    requires IsList(v)
    ensures j == Marshal(v)
    decreases v, 0
  {
    var items: seq<Json> := [];
    for i := 0 to |v.list|
      invariant items == seq(|Visited(v.list[..i])|,
                             k requires 0 <= k < |Visited(v.list[..i])| => Marshal(Visited(v.list[..i])[k]))
    {
      assert v.list[..i + 1][..i] == v.list[..i];
      if v.list[i] != Nil {
        var item := MarshalValue(v.list[i]);
        items := items + [item];
      }
    }
    assert v.list[..|v.list|] == v.list;
    j := Array(items);
  }

  method MarshalPositions(v: Lua) returns (dict: map<string, Json>)
    requires v.Table?
    ensures dict.Keys == Positions(v.list)
    ensures forall k <- dict :: dict[k] == Marshal(AtPosition(v.list, k))
    decreases v, 0
  {
    dict := map[];
    for i := 0 to |v.list|
      invariant dict.Keys == Positions(v.list[..i]) <= Positions(v.list)
      invariant forall k <- dict :: dict[k] == Marshal(AtPosition(v.list, k))
    {
      PositionStep(v.list, i);
      if v.list[i] != Nil {
        var item := MarshalValue(v.list[i]);
        PositionValue(v.list, i);
        dict := dict[NatText(i + 1) := item];
      }
    }
    assert v.list[..|v.list|] == v.list;
  }

  lemma MembersAre(v: Lua)
    requires v.Table? && !IsList(v)
    ensures Marshal(v).Object?
    ensures Marshal(v).members.Keys == Named(v.fields) + Positions(v.list)
    ensures forall k <- Named(v.fields) :: k in v.fields && Marshal(v).members[k] == Marshal(v.fields[k])
    ensures forall k <- Positions(v.list) - Named(v.fields) :: Marshal(v).members[k] == Marshal(AtPosition(v.list, k))
  {
  }

  /** The members collected once the positions and all string keys outside todo are visited. */
  ghost predicate IsPartial(v: Lua, dict: map<string, Json>, todo: set<string>)
    requires v.Table?
  {
    && dict.Keys == Positions(v.list) + (Named(v.fields) - todo)
    && (forall k <- Named(v.fields) - todo :: dict[k] == Marshal(v.fields[k]))
    && (forall k <- dict.Keys - (Named(v.fields) - todo) :: dict[k] == Marshal(AtPosition(v.list, k)))
  }

  lemma MemberStep(v: Lua, dict: map<string, Json>, todo: set<string>, k: string)
    requires v.Table? && IsPartial(v, dict, todo) && k in todo && k in v.fields
    ensures IsPartial(v, if v.fields[k] == Nil then dict else dict[k := Marshal(v.fields[k])], todo - {k})
  {
    if v.fields[k] == Nil {
      assert Named(v.fields) - (todo - {k}) == Named(v.fields) - todo;
    } else {
      assert Named(v.fields) - (todo - {k}) == Named(v.fields) - todo + {k};
    }
  }

  lemma AllMembers(v: Lua, dict: map<string, Json>)
    requires v.Table? && !IsList(v) && IsPartial(v, dict, {})
    ensures Object(dict) == Marshal(v)
  {
    MembersAre(v);
    assert Named(v.fields) - {} == Named(v.fields);
    assert dict == Marshal(v).members;
  }

  method MarshalMembers(v: Lua) returns (j: Json)
    requires v.Table? && !IsList(v)
    ensures j == Marshal(v)
    decreases v, 1
  {
    var dict := MarshalPositions(v);
    var todo := v.fields.Keys;
    assert Named(v.fields) - todo == {};
    while todo != {}
      invariant todo <= v.fields.Keys
      invariant IsPartial(v, dict, todo)
      decreases |todo|
    {
      var k :| k in todo;
      MemberStep(v, dict, todo, k);
      if v.fields[k] != Nil {
        var item := MarshalValue(v.fields[k]);
        dict := dict[k := item];
      }
      todo := todo - {k};
    }
    AllMembers(v, dict);
    j := Object(dict);
  }

  lemma PositionStep(list: seq<Lua>, i: nat)
    requires i < |list|
    ensures Positions(list[..i]) <= Positions(list[..i + 1]) <= Positions(list)
    ensures Positions(list[..i + 1]) == Positions(list[..i]) + if list[i] == Nil then {} else {NatText(i + 1)}
  {
    var now, before := list[..i + 1], list[..i];
    forall k | k in Positions(before) ensures k in Positions(now) {
      var p :| 0 <= p < |before| && before[p] != Nil && k == NatText(p + 1);
      assert now[p] == before[p];
    }
    forall k | k in Positions(now)
      ensures k in Positions(list) && (k in Positions(before) || (list[i] != Nil && k == NatText(i + 1)))
    {
      var p :| 0 <= p < |now| && now[p] != Nil && k == NatText(p + 1);
      assert list[p] == now[p];
      assert p < i ==> before[p] == now[p];
    }
    if list[i] != Nil {
      assert now[i] == list[i];
    }
  }

  lemma PositionValue(list: seq<Lua>, i: nat)
    requires i < |list| && list[i] != Nil
    ensures NatText(i + 1) in Positions(list) && AtPosition(list, NatText(i + 1)) == list[i]
  {
    NatTextValue(i + 1);
  }

  /** Numbers, texts and truth values keep their value, arrays their elements in order with holes for nulls, and
      objects their members other than null under their names. */
  method UnmarshalValue(j: Json) returns (v: Lua)
    ensures v == Unmarshal(j)
    ensures match j
      case Null => v == Nil
      case Number(n) => v == LNumber(n)
      case String(s) => v == LString(s)
      case Bool(b) => v == LBool(b)
      case Array(items) =>
        && v.Table? && v.fields == map[] && |v.list| == |items|
        && (forall i | 0 <= i < |items| :: v.list[i] == Unmarshal(items[i]))
      case Object(members) =>
        && v.Table? && v.list == []
        && (forall k :: k in v.fields <==> k in members && members[k] != Null)
        && (forall k <- v.fields :: v.fields[k] == Unmarshal(members[k]))
    decreases j
  {
    match j
    case Null => v := Nil;
    case Number(n) => v := LNumber(n);
    case String(s) => v := LString(s);
    case Bool(b) => v := LBool(b);
    case Array(items) =>
      var list: seq<Lua> := [];
      for i := 0 to |items|
        invariant |list| == i && forall k | 0 <= k < i :: list[k] == Unmarshal(items[k])
      {
        var item := UnmarshalValue(items[i]);
        list := list + [item];
      }
      v := Table(list, map[]);
    case Object(members) =>
      var fields: map<string, Lua> := map[];
      var todo := members.Keys;
      while todo != {}
        invariant todo <= members.Keys
        invariant fields == map k | k in members && k !in todo && members[k] != Null :: Unmarshal(members[k])
        decreases |todo|
      {
        var k :| k in todo;
        var item := UnmarshalValue(members[k]);
        fields := if item == Nil then fields else fields[k := item];
        todo := todo - {k};
      }
      v := Table([], fields);
  }

  // ---------- what a converted value holds ----------

  lemma PositionOf(list: seq<Lua>, k: string) returns (i: nat)
    requires k in Positions(list)
    ensures i < |list| && list[i] != Nil && k == NatText(i + 1) && AtPosition(list, k) == list[i]
  {
    i :| 0 <= i < |list| && list[i] != Nil && k == NatText(i + 1);
    PositionValue(list, i);
  }

  /** A table with a string key becomes an object: every value under its string key, every element of the sequence
      part under its decimal position counted from one unless a string key has that text, and nothing else. */
  lemma MixedMembers(v: Lua, key: string, m: map<string, Json>)
    requires v.Table? && key in v.fields && v.fields[key] != Nil && m == Marshal(v).members
    ensures Marshal(v).Object?
    ensures forall k <- v.fields | v.fields[k] != Nil :: k in m && m[k] == Marshal(v.fields[k])
    ensures forall i | 0 <= i < |v.list| && v.list[i] != Nil && NatText(i + 1) !in v.fields ::
      NatText(i + 1) in m && m[NatText(i + 1)] == Marshal(v.list[i])
    ensures forall k <- m | !(k in v.fields && v.fields[k] != Nil) ::
      exists i | 0 <= i < |v.list| && v.list[i] != Nil :: k == NatText(i + 1)
  {
    assert !IsList(v);
    MembersAre(v);
    forall i | 0 <= i < |v.list| && v.list[i] != Nil && NatText(i + 1) !in v.fields
      ensures NatText(i + 1) in m && m[NatText(i + 1)] == Marshal(v.list[i])
    {
      PositionValue(v.list, i);
    }
    forall k | k in m && k !in Named(v.fields)
      ensures exists i | 0 <= i < |v.list| && v.list[i] != Nil :: k == NatText(i + 1)
    {
      var i := PositionOf(v.list, k);
    }
  }

  /** A table without string keys becomes an array; without holes, of all its elements in order. */
  lemma ListItems(list: seq<Lua>, fields: map<string, Lua>)
    requires forall k <- fields :: fields[k] == Nil
    ensures Marshal(Table(list, fields)).Array?
    ensures Nil !in list ==>
      var items := Marshal(Table(list, fields)).items;
      |items| == |list| && forall i | 0 <= i < |list| :: items[i] == Marshal(list[i])
  {
    ItemsAre(Table(list, fields));
    if Nil !in list {
      NoHoles(list);
    }
  }

  // ---------- from JSON to Lua and back ----------

  function NonNull(items: seq<Json>): (r: seq<Json>)
    ensures forall x <- r :: x in items && x != Null
  {
    if |items| == 0 then []
    else NonNull(items[..|items| - 1]) + (if items[|items| - 1] == Null then [] else [items[|items| - 1]])
  }

  /** The tree without the nulls inside arrays and objects, empty objects turned into empty arrays. */
  function Normal(j: Json): Json {
    match j
    case Array(items) =>
      var kept := NonNull(items);
      Array(seq(|kept|, i requires 0 <= i < |kept| => assert kept[i] in items; Normal(kept[i])))
    case Object(members) =>
      var kept := map k | k in members && members[k] != Null :: Normal(members[k]);
      if kept == map[] then Array([]) else Object(kept)
    case _ => j
  }

  function UnmarshalAll(items: seq<Json>): seq<Lua> {
    seq(|items|, i requires 0 <= i < |items| => Unmarshal(items[i]))
  }

  lemma {:induction false} VisitedItems(items: seq<Json>)
    ensures Visited(UnmarshalAll(items)) == UnmarshalAll(NonNull(items))
  {
    if |items| > 0 {
      var n := |items| - 1;
      VisitedItems(items[..n]);
      assert UnmarshalAll(items)[..n] == UnmarshalAll(items[..n]);
    }
  }

  function MarshalAll(items: seq<Lua>): seq<Json> {
    seq(|items|, i requires 0 <= i < |items| => Marshal(items[i]))
  }

  lemma ItemsAre(v: Lua)
    requires IsList(v)
    ensures Marshal(v) == Array(MarshalAll(Visited(v.list)))
  {
    var items := Visited(v.list);
    assert Marshal(v).items == MarshalAll(items);
  }

  /** Sending a tree through Lua changes exactly this: nulls inside it are dropped
      and empty objects become empty arrays. */
  lemma {:induction false} ThroughLua(j: Json)
    ensures Marshal(Unmarshal(j)) == Normal(j)
    decreases j
  {
    match j
    case Array(items) =>
      var kept := NonNull(items);
      forall i | 0 <= i < |kept| ensures Marshal(Unmarshal(kept[i])) == Normal(kept[i]) {
        assert kept[i] in items;
        ThroughLua(kept[i]);
      }
      ArrayThroughLua(items);
    case Object(members) =>
      forall k | k in members ensures Marshal(Unmarshal(members[k])) == Normal(members[k]) {
        ThroughLua(members[k]);
      }
      ObjectThroughLua(members);
    case _ =>
  }

  lemma ArrayThroughLua(items: seq<Json>)
    requires forall i | 0 <= i < |NonNull(items)| :: Marshal(Unmarshal(NonNull(items)[i])) == Normal(NonNull(items)[i])
    ensures Marshal(Unmarshal(Array(items))) == Normal(Array(items))
  {
    var kept, v := NonNull(items), Unmarshal(Array(items));
    assert v.list == UnmarshalAll(items);
    ItemsAre(v);
    VisitedItems(items);
    assert MarshalAll(UnmarshalAll(kept)) == Normal(Array(items)).items;
  }

  function NormalMembers(members: map<string, Json>): map<string, Json> {
    map k | k in members && members[k] != Null :: Normal(members[k])
  }

  lemma NormalObject(members: map<string, Json>)
    ensures Normal(Object(members)) ==
            if NormalMembers(members) == map[] then Array([]) else Object(NormalMembers(members))
  {
  }

  function MarshalFields(fields: map<string, Lua>): map<string, Json> {
    map k | k in fields :: Marshal(fields[k])
  }

  /** A table with string keys only. */
  lemma FieldsAre(fields: map<string, Lua>)
    requires forall k <- fields :: fields[k] != Nil
    ensures Marshal(Table([], fields)) == if fields == map[] then Array([]) else Object(MarshalFields(fields))
  {
    var v := Table([], fields);
    if fields == map[] {
      ItemsAre(v);
    } else {
      var k :| k in fields;
      assert !IsList(v);
      MembersAre(v);
      assert Named(fields) == fields.Keys && Positions([]) == {};
      assert Marshal(v).members == MarshalFields(fields);
    }
  }

  lemma EmptyMap<V>(m: map<string, V>)
    ensures m == map[] <==> m.Keys == {}
  {
  }

  lemma MembersThroughLua(members: map<string, Json>)
    requires forall k <- members :: Marshal(Unmarshal(members[k])) == Normal(members[k])
    ensures Unmarshal(Object(members)).fields.Keys == NormalMembers(members).Keys
    ensures MarshalFields(Unmarshal(Object(members)).fields) == NormalMembers(members)
  {
  }

  lemma ObjectThroughLua(members: map<string, Json>)
    requires forall k <- members :: Marshal(Unmarshal(members[k])) == Normal(members[k])
    ensures Marshal(Unmarshal(Object(members))) == Normal(Object(members))
  {
    var fields := Unmarshal(Object(members)).fields;
    MembersThroughLua(members);
    EmptyMap(fields);
    EmptyMap(NormalMembers(members));
    NormalObject(members);
    FieldsAre(fields);
  }

  /** No null inside an array or an object, and no empty object. */
  predicate IsNormal(j: Json) {
    match j
    case Array(items) => forall x <- items :: x != Null && IsNormal(x)
    case Object(members) => members != map[] && forall k <- members :: members[k] != Null && IsNormal(members[k])
    case _ => true
  }

  lemma SameFront<T>(a: seq<T>, b: seq<T>, x: T)
    ensures a + [x] == b + [x] <==> a == b
  {
    assert (a + [x])[..|a|] == a && (b + [x])[..|b|] == b;
  }

  lemma {:induction false} NothingDropped(items: seq<Json>)
    ensures NonNull(items) == items <==> Null !in items
    ensures |NonNull(items)| <= |items|
  {
    if |items| > 0 {
      var n := |items| - 1;
      var front, last := items[..n], items[n];
      NothingDropped(front);
      assert items == front + [last];
      SameFront(NonNull(front), front, last);
    }
  }

  function NormalAll(items: seq<Json>): seq<Json> {
    seq(|items|, i requires 0 <= i < |items| => Normal(items[i]))
  }

  lemma NormalArray(items: seq<Json>)
    requires Null !in items
    ensures Normal(Array(items)) == Array(NormalAll(items))
  {
    NothingDropped(items);
    assert Normal(Array(items)).items == NormalAll(items);
  }

  lemma {:induction false} NormalIsNormal(j: Json)
    ensures IsNormal(Normal(j)) && (Normal(j) == Null <==> j == Null)
    decreases j
  {
    match j
    case Array(items) =>
      var kept := NonNull(items);
      forall i | 0 <= i < |kept| ensures Normal(kept[i]) != Null && IsNormal(Normal(kept[i])) {
        assert kept[i] in items && kept[i] != Null;
        NormalIsNormal(kept[i]);
      }
    case Object(members) =>
      NormalObject(members);
      forall k | k in members && members[k] != Null ensures Normal(members[k]) != Null && IsNormal(Normal(members[k])) {
        NormalIsNormal(members[k]);
      }
    case _ =>
  }

  /** A tree survives unchanged exactly when it has no null inside it and no empty object. */
  lemma {:induction false} UnchangedExactly(j: Json)
    ensures Marshal(Unmarshal(j)) == j <==> IsNormal(j)
  {
    ThroughLua(j);
    if IsNormal(j) {
      NormalIsUnchanged(j);
    }
    if Normal(j) == j {
      NormalIsNormal(j);
    }
  }

  lemma {:induction false} NormalIsUnchanged(j: Json)
    requires IsNormal(j)
    ensures Normal(j) == j
    decreases j
  {
    match j
    case Array(items) =>
      forall i | 0 <= i < |items| ensures Normal(items[i]) == items[i] {
        assert items[i] in items;
        NormalIsUnchanged(items[i]);
      }
      NormalArray(items);
      assert NormalAll(items) == items;
    case Object(members) =>
      forall k | k in members ensures Normal(members[k]) == members[k] && members[k] != Null {
        NormalIsUnchanged(members[k]);
      }
      NormalObject(members);
      assert NormalMembers(members) == members;
    case _ =>
  }

  /** Going through Lua a second time changes nothing more. */
  lemma ThroughLuaTwice(j: Json)
    ensures var once := Marshal(Unmarshal(j)); Marshal(Unmarshal(once)) == once
  {
    ThroughLua(j);
    NormalIsNormal(j);
    UnchangedExactly(Normal(j));
  }

  predicate IsNullFree(j: Json) {
    match j
    case Null => false
    case Array(items) => forall x <- items :: IsNullFree(x)
    case Object(members) => forall k <- members :: IsNullFree(members[k])
    case _ => true
  }

  /** The tree with each empty object replaced by an empty array, all else in place. */
  function Listed(j: Json): Json {
    match j
    case Array(items) => Array(seq(|items|, i requires 0 <= i < |items| => Listed(items[i])))
    case Object(members) => if members == map[] then Array([]) else Object(map k | k in members :: Listed(members[k]))
    case _ => j
  }

  /** A tree without nulls keeps its shape, apart from its empty objects. */
  lemma {:induction false} NullFreeThroughLua(j: Json)
    requires IsNullFree(j)
    ensures Marshal(Unmarshal(j)) == Listed(j)
  {
    ThroughLua(j);
    NullFreeNormal(j);
  }

  lemma {:induction false} NullFreeNormal(j: Json)
    requires IsNullFree(j)
    ensures Normal(j) == Listed(j)
    decreases j
  {
    match j
    case Array(items) =>
      forall i | 0 <= i < |items| ensures Normal(items[i]) == Listed(items[i]) && items[i] != Null {
        assert items[i] in items;
        NullFreeNormal(items[i]);
      }
      NormalArray(items);
      assert NormalAll(items) == Listed(j).items;
    case Object(members) =>
      forall k | k in members ensures Normal(members[k]) == Listed(members[k]) && members[k] != Null {
        NullFreeNormal(members[k]);
      }
      NullFreeObject(members);
    case _ =>
  }

  lemma NullFreeObject(members: map<string, Json>)
    requires forall k <- members :: Normal(members[k]) == Listed(members[k]) && members[k] != Null
    ensures Normal(Object(members)) == Listed(Object(members))
  {
    NormalObject(members);
    var kept := NormalMembers(members);
    assert kept.Keys == members.Keys;
    assert kept == map k | k in members :: Listed(members[k]);
  }

  // ---------- from Lua to JSON and back ----------

  /** A value as Lua code can build it: no nil is stored in a table. */
  predicate IsStored(v: Lua) {
    match v
    case Table(list, fields) =>
      && (forall x <- list :: x != Nil && IsStored(x))
      && (forall k <- fields :: fields[k] != Nil && IsStored(fields[k]))
    case _ => true
  }

  /** Hereditarily a plain sequence or a purely string-keyed table. */
  predicate IsProper(v: Lua) {
    match v
    case Foreign => false
    case Table(list, fields) =>
      && (list == [] || fields == map[])
      && (forall x <- list :: IsProper(x))
      && (forall k <- fields :: IsProper(fields[k]))
    case _ => true
  }

  lemma {:induction false} NoHoles(list: seq<Lua>)
    requires Nil !in list
    ensures Visited(list) == list
  {
    if |list| > 0 {
      var n := |list| - 1;
      NoHoles(list[..n]);
      assert list == list[..n] + [list[n]];
    }
  }

  /** A value that Lua code can build survives the way through JSON exactly when it is hereditarily
      a plain sequence or a purely string-keyed table. */
  lemma {:induction false} ThroughJsonExactly(v: Lua)
    requires IsStored(v)
    ensures Unmarshal(Marshal(v)) == v <==> IsProper(v)
    decreases v
  {
    match v
    case Table(list, fields) =>
      forall x <- list ensures IsStored(x) && (Unmarshal(Marshal(x)) == x <==> IsProper(x)) {
        ThroughJsonExactly(x);
      }
      forall k <- fields
        ensures IsStored(fields[k]) && (Unmarshal(Marshal(fields[k])) == fields[k] <==> IsProper(fields[k]))
      {
        ThroughJsonExactly(fields[k]);
      }
      if fields == map[] {
        ListThroughJson(v);
      } else {
        FieldsThroughJson(v);
      }
    case _ =>
  }

  lemma ListThroughJson(v: Lua)
    requires v.Table? && v.fields == map[] && IsStored(v)
    requires forall x <- v.list :: Unmarshal(Marshal(x)) == x <==> IsProper(x)
    ensures Unmarshal(Marshal(v)) == v <==> IsProper(v)
  {
    NoHoles(v.list);
    ItemsAre(v);
    var back := UnmarshalAll(MarshalAll(v.list));
    assert Unmarshal(Marshal(v)) == Table(back, map[]);
    if forall i | 0 <= i < |v.list| :: back[i] == v.list[i] {
      assert back == v.list;
      forall x <- v.list ensures IsProper(x) {
        var i :| 0 <= i < |v.list| && v.list[i] == x;
        assert back[i] == Unmarshal(Marshal(v.list[i]));
      }
    } else {
      var i :| 0 <= i < |v.list| && back[i] != v.list[i];
      assert v.list[i] in v.list && !IsProper(v.list[i]);
    }
  }

  lemma FieldsBack(fields: map<string, Lua>)
    requires fields != map[] && forall k <- fields :: fields[k] != Nil
    ensures Unmarshal(Marshal(Table([], fields))) ==
            Table([], map k | k in fields && Marshal(fields[k]) != Null :: Unmarshal(Marshal(fields[k])))
  {
    FieldsAre(fields);
    var members := MarshalFields(fields);
    assert Unmarshal(Object(members)).fields ==
           map k | k in fields && Marshal(fields[k]) != Null :: Unmarshal(Marshal(fields[k]));
  }

  lemma FieldsThroughJson(v: Lua)
    requires v.Table? && v.fields != map[] && IsStored(v)
    requires forall k <- v.fields :: Unmarshal(Marshal(v.fields[k])) == v.fields[k] <==> IsProper(v.fields[k])
    ensures Unmarshal(Marshal(v)) == v <==> IsProper(v)
  {
    if v.list == [] {
      FieldsBack(v.fields);
      var back := Unmarshal(Marshal(v)).fields;
      if forall k <- v.fields :: IsProper(v.fields[k]) {
        assert back == v.fields;
      } else {
        var k :| k in v.fields && !IsProper(v.fields[k]);
        assert k !in back || back[k] != v.fields[k];
      }
    } else {
      MixedThroughJson(v);
    }
  }

  /** Positions and string keys together become string keys. */
  lemma MixedThroughJson(v: Lua)
    requires v.Table? && v.list != [] && v.fields != map[] && IsStored(v)
    ensures Unmarshal(Marshal(v)).Table? && Unmarshal(Marshal(v)).list == []
  {
    var k :| k in v.fields;
    assert v.fields[k] != Nil;
    assert !IsList(v);
  }
}
