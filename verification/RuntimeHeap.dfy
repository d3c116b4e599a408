/** pseudo2_heap_runtime.c: arrays and structs of the Pseudo2 language on a heap of blocks. A struct keeps the ids and
    the values of its fields in two parallel arrays. */
module RuntimeHeap {
  import opened Basics
  import opened Objects

  datatype Kind = ARRAY | STRUCT

  /** What 'malloc' and 'calloc' return addresses of. The arrays have one element more than they need. */
  datatype Block =
    | ValueBlock(kind: Kind, arrayPart: Ptr, structPart: Ptr)
    | ArrayBlock(length: nat, items: Ptr)
    | StructBlock(fieldCount: nat, definedCount: nat, fieldIds: Ptr, values: Ptr)
    | Pointers(elems: seq<Ptr>)
    | Ints(ints: seq<int>)

  datatype Field = Field(id: int, value: Ptr)

  /** What a value, or a struct that is being built, stands for. */
  datatype Content =
    | Plain
    | Array(items: seq<Ptr>)
    | Builder(capacity: nat, defined: seq<Field>)
    | Struct(fields: seq<Field>)

  /** The value of the first field with the id, or the null pointer. */
  function Lookup(id: int, fields: seq<Field>): Ptr {
    if fields == [] then NULL else if fields[0].id == id then fields[0].value else Lookup(id, fields[1..])
  }

  /** The first field with the id gets another value. */
  function Update(id: int, value: Ptr, fields: seq<Field>): seq<Field> {
    if fields == [] then []
    else if fields[0].id == id then [Field(id, value)] + fields[1..]
    else [fields[0]] + Update(id, value, fields[1..])
  }

  function UpdateAll(sets: seq<Field>, fields: seq<Field>): seq<Field> {
    if sets == [] then fields
    else UpdateAll(sets[1..], Update(sets[0].id, sets[0].value, fields))
  }

  /** The value that was set last. */
  function LastSet(id: int, sets: seq<Field>): Option<Ptr> {
    if sets == [] then None
    else if sets[|sets| - 1].id == id then Some(sets[|sets| - 1].value)
    else LastSet(id, sets[..|sets| - 1])
  }

  lemma {:induction false} UpdatedLookup(id: int, value: Ptr, fields: seq<Field>, other: int)
    requires Lookup(id, fields) != NULL
    ensures Lookup(other, Update(id, value, fields)) == if other == id then value else Lookup(other, fields)
    ensures |Update(id, value, fields)| == |fields|
    ensures forall i | 0 <= i < |fields| :: Update(id, value, fields)[i].id == fields[i].id
  {
    if fields[0].id != id {
      UpdatedLookup(id, value, fields[1..], other);
    }
  }

  lemma {:induction false} UpdatedAllAppend(sets: seq<Field>, f: Field, fields: seq<Field>)
    ensures UpdateAll(sets + [f], fields) == Update(f.id, f.value, UpdateAll(sets, fields))
    decreases |sets|
  {
    if sets == [] {
      assert [f][1..] == [];
    } else {
      assert (sets + [f])[1..] == sets[1..] + [f];
      UpdatedAllAppend(sets[1..], f, Update(sets[0].id, sets[0].value, fields));
    }
  }

  /** After any number of sets of existing fields, a get returns what was set last for that field; the ids, their
      order and their number have not changed. */
  lemma {:induction false} LastSetWins(sets: seq<Field>, fields: seq<Field>, id: int)
    requires forall f | f in sets :: f.value != NULL && Lookup(f.id, fields) != NULL
    ensures var after := UpdateAll(sets, fields);
            && Lookup(id, after) == (if LastSet(id, sets).Some? then LastSet(id, sets).value else Lookup(id, fields))
            && |after| == |fields| && forall i | 0 <= i < |fields| :: after[i].id == fields[i].id
    decreases |sets|
  {
    if sets != [] {
      var rest, f := sets[..|sets| - 1], sets[|sets| - 1];
      assert sets == rest + [f];
      UpdatedAllAppend(rest, f, fields);
      LastSetWins(rest, fields, f.id);
      LastSetIsSet(f.id, rest);
      LastSetWins(rest, fields, id);
      UpdatedLookup(f.id, f.value, UpdateAll(rest, fields), id);
    }
  }

  lemma {:induction false} LastSetIsSet(id: int, sets: seq<Field>)
    ensures LastSet(id, sets).Some? ==> exists f :: f in sets && f.value == LastSet(id, sets).value
    decreases |sets|
  {
    if sets != [] && sets[|sets| - 1].id != id {
      LastSetIsSet(id, sets[..|sets| - 1]);
    } else if sets != [] {
      assert sets[|sets| - 1] in sets;
    }
  }

  /** The fields in two parallel arrays. */
  function Zip(ids: seq<int>, values: seq<Ptr>): seq<Field>
    requires |ids| == |values|
  {
    seq(|ids|, i requires 0 <= i < |ids| => Field(ids[i], values[i]))
  }

  /** The blocks of a value (or builder) v. */
  predicate Represents(mem: map<Ptr, Block>, v: Ptr, c: Content, blocks: set<Ptr>) {
    && v in mem && v != NULL
    && match c
       case Plain => blocks == {v}
       case Array(items) =>
         && mem[v].ValueBlock? && mem[v].kind == ARRAY
         && IsArray(mem, mem[v].arrayPart, items) && blocks == {v, mem[v].arrayPart, mem[mem[v].arrayPart].items}
         && v != mem[v].arrayPart && v != mem[mem[v].arrayPart].items
       case Builder(capacity, defined) =>
         && IsFields(mem, v, capacity, defined) && blocks == {v, mem[v].fieldIds, mem[v].values}
       case Struct(fields) =>
         && mem[v].ValueBlock? && mem[v].kind == STRUCT
         && IsFields(mem, mem[v].structPart, |fields|, fields) && v != mem[v].structPart
         && blocks == {v, mem[v].structPart, mem[mem[v].structPart].fieldIds, mem[mem[v].structPart].values}
         && v != mem[mem[v].structPart].fieldIds && v != mem[mem[v].structPart].values
  }

  predicate IsArray(mem: map<Ptr, Block>, a: Ptr, items: seq<Ptr>) {
    && a in mem && mem[a].ArrayBlock? && mem[a].length == |items|
    && mem[a].items in mem && mem[mem[a].items].Pointers?
    && |mem[mem[a].items].elems| == |items| + 1 && mem[mem[a].items].elems[..|items|] == items
  }

  predicate IsFields(mem: map<Ptr, Block>, o: Ptr, capacity: nat, fields: seq<Field>) {
    && o in mem && mem[o].StructBlock? && mem[o].fieldCount == capacity && mem[o].definedCount == |fields| <= capacity
    && mem[o].fieldIds in mem && mem[mem[o].fieldIds].Ints? && |mem[mem[o].fieldIds].ints| == capacity + 1
    && mem[o].values in mem && mem[mem[o].values].Pointers? && |mem[mem[o].values].elems| == capacity + 1
    && Zip(mem[mem[o].fieldIds].ints[..|fields|], mem[mem[o].values].elems[..|fields|]) == fields
  }

  function Blocks(owner: map<Ptr, Ptr>, v: Ptr): set<Ptr> {
    set b | b in owner && owner[b] == v
  }

  /** Every block belongs to one value, and every value is represented by its blocks. */
  predicate Ok(mem: map<Ptr, Block>, owner: map<Ptr, Ptr>, contents: map<Ptr, Content>) {
    && owner.Keys == mem.Keys && NULL !in mem && (forall b | b in owner :: owner[b] in contents)
    && (forall v | v in contents :: Represents(mem, v, contents[v], Blocks(owner, v)))
  }

  lemma RepresentsFrame(mem: map<Ptr, Block>, mem': map<Ptr, Block>, v: Ptr, c: Content, blocks: set<Ptr>)
    requires Represents(mem, v, c, blocks) && forall b | b in blocks :: b in mem' && mem'[b] == mem[b]
    ensures Represents(mem', v, c, blocks)
  {
    assert v in blocks;
  }

  /** A value was changed by writing to its blocks. */
  lemma OneChanged(mem: map<Ptr, Block>, owner: map<Ptr, Ptr>, contents: map<Ptr, Content>, mem': map<Ptr, Block>,
                   v: Ptr, c: Content)
    requires Ok(mem, owner, contents) && v in contents && mem'.Keys == mem.Keys
    requires forall b | b in mem && owner[b] != v :: mem'[b] == mem[b]
    requires Represents(mem', v, c, Blocks(owner, v))
    ensures Ok(mem', owner, contents[v := c])
  {
    hide Represents;
    forall w | w in contents && w != v ensures Represents(mem', w, contents[w], Blocks(owner, w)) {
      InMemory(mem, owner, contents, w);
      RepresentsFrame(mem, mem', w, contents[w], Blocks(owner, w));
    }
  }

  lemma InMemory(mem: map<Ptr, Block>, owner: map<Ptr, Ptr>, contents: map<Ptr, Content>, v: Ptr)
    requires Ok(mem, owner, contents) && v in contents
    ensures v in mem && owner[v] == v && forall b | b in Blocks(owner, v) :: b in mem
  {
    assert v in Blocks(owner, v);
  }

  function Owning(owner: map<Ptr, Ptr>, bs: set<Ptr>, v: Ptr): map<Ptr, Ptr> {
    owner + map b | b in bs :: v
  }

  lemma BlocksOwned(owner: map<Ptr, Ptr>, bs: set<Ptr>, v: Ptr, w: Ptr)
    requires bs !! owner.Keys && forall b | b in owner :: owner[b] != v
    ensures Owning(owner, bs, v).Keys == owner.Keys + bs
    ensures Blocks(Owning(owner, bs, v), w) == if w == v then bs else Blocks(owner, w)
  {
  }

  /** A value was added with new blocks. */
  lemma OneAdded(mem: map<Ptr, Block>, owner: map<Ptr, Ptr>, contents: map<Ptr, Content>, mem': map<Ptr, Block>, v: Ptr,
                 c: Content, bs: set<Ptr>)
    requires Ok(mem, owner, contents) && v in bs && bs !! mem.Keys && mem'.Keys == mem.Keys + bs && NULL !in bs
    requires (forall b | b in mem :: mem'[b] == mem[b]) && Represents(mem', v, c, bs)
    ensures v !in contents && Ok(mem', Owning(owner, bs, v), contents[v := c])
  {
    hide Represents, Blocks;
    var owner' := Owning(owner, bs, v);
    if v in contents {
      InMemory(mem, owner, contents, v);
    }
    forall w | w in contents[v := c] ensures Represents(mem', w, contents[v := c][w], Blocks(owner', w)) {
      BlocksOwned(owner, bs, v, w);
      if w != v {
        InMemory(mem, owner, contents, w);
        RepresentsFrame(mem, mem', w, contents[w], Blocks(owner, w));
      }
    }
  }

  /** A value was removed with its blocks. */
  lemma OneRemoved(mem: map<Ptr, Block>, owner: map<Ptr, Ptr>, contents: map<Ptr, Content>, v: Ptr)
    requires Ok(mem, owner, contents) && v in contents
    ensures var bs := Blocks(owner, v); Ok(mem - bs, owner - bs, contents - {v})
  {
    hide Represents;
    var bs := Blocks(owner, v);
    forall w | w in contents && w != v
      ensures Represents(mem - bs, w, contents[w], Blocks(owner - bs, w))
    {
      InMemory(mem, owner, contents, w);
      assert Blocks(owner - bs, w) == Blocks(owner, w);
      RepresentsFrame(mem, mem - bs, w, contents[w], Blocks(owner, w));
    }
  }

  /** Every block that was allocated has been freed when no value is left. */
  lemma NothingLeft(mem: map<Ptr, Block>, owner: map<Ptr, Ptr>)
    requires Ok(mem, owner, map[])
    ensures mem == map[]
  {
    assert forall b | b in mem :: b in owner;
  }

  class Runtime {
    var mem: map<Ptr, Block>

    /** The values in use, and to which value each block belongs. */
    ghost var contents: map<Ptr, Content>
    ghost var owner: map<Ptr, Ptr>

    constructor ()
      ensures Valid() && contents == map[] && mem == map[]
    {
      mem, contents, owner := map[], map[], map[];
    }

    ghost predicate Valid()
      reads this
    {
      Ok(mem, owner, contents)
    }

    ghost predicate IsArrayValue(v: Ptr)
      reads this
    {
      v in contents && contents[v].Array?
    }

    /** A struct that has a field with the id; its value is not null. */
    ghost predicate HasField(v: Ptr, id: int)
      reads this
    {
      v in contents && contents[v].Struct? && Lookup(id, contents[v].fields) != NULL
    }

    method Allocate(block: Block) returns (p: Ptr)
      modifies `mem
      ensures p !in old(mem) && p != NULL && mem == old(mem)[p := block]
    {
      p := Malloc(mem);
      mem := mem[p := block];
    }

    /** 'free': only a block that is allocated can be freed. */
    method Free(p: Ptr)
      requires p in mem
      modifies `mem
      ensures mem == old(mem) - {p}
    {
      mem := mem - {p};
    }

    /** A value without parts, as 'main' allocates it. */
    method PlainCreate() returns (v: Ptr)
      requires Valid()
      modifies this
      ensures Valid() && v != NULL && v !in old(contents) && contents == old(contents)[v := Plain]
    {
      ghost var mem0 := mem;
      v := Allocate(ValueBlock(ARRAY, NULL, NULL));
      OneAdded(mem0, owner, contents, mem, v, Plain, {v});
      owner, contents := Owning(owner, {v}, v), contents[v := Plain];
    }

    method PlainDispose(v: Ptr)
      requires Valid() && v in contents && contents[v] == Plain
      modifies this
      ensures Valid() && contents == old(contents) - {v}
    {
      OneRemoved(mem, owner, contents, v);
      Free(v);
      owner, contents := owner - Blocks(owner, v), contents - {v};
    }

    /** 'ps2_array_create' */
    method ArrayCreate(length: nat) returns (v: Ptr)
      requires Valid()
      modifies this
      ensures Valid() && v != NULL && v !in old(contents)
      ensures contents == old(contents)[v := Array(seq(length, _ => NULL))]
    {
      hide Ok;
      ghost var mem0 := mem;
      NullIsFree();
      var array_ := Allocate(ArrayBlock(length, NULL));
      var data := Allocate(Pointers(seq(length + 1, _ => NULL)));
      mem := mem[array_ := ArrayBlock(length, data)];
      v := Allocate(ValueBlock(ARRAY, array_, NULL));
      assert seq(length + 1, _ => NULL)[..length] == seq(length, _ => NULL);
      OneAdded(mem0, owner, contents, mem, v, Array(seq(length, _ => NULL)), {v, array_, data});
      owner, contents := Owning(owner, {v, array_, data}, v), contents[v := Array(seq(length, _ => NULL))];
    }

    lemma NullIsFree()
      requires Valid()
      ensures NULL !in mem
    {
    }

    /** The blocks of a value. */
    lemma Represented(v: Ptr)
      requires Valid() && v in contents
      ensures Represents(mem, v, contents[v], Blocks(owner, v)) && owner.Keys == mem.Keys
    {
    }

    /** 'ps2_array_get_zero_based' */
    method ArrayGet(v: Ptr, index: nat) returns (item: Ptr)
      requires Valid() && IsArrayValue(v) && index < |contents[v].items|
      ensures item == contents[v].items[index]
    {
      Represented(v);
      item := mem[mem[mem[v].arrayPart].items].elems[index];
    }

    /** 'ps2_array_set_zero_based' */
    method ArraySet(v: Ptr, index: nat, item: Ptr)
      requires Valid() && IsArrayValue(v) && index < |contents[v].items|
      modifies this
      ensures Valid() && contents == old(contents)[v := Array(old(contents[v]).items[index := item])]
    {
      hide Ok;
      Represented(v);
      ghost var mem0, items := mem, contents[v].items[index := item];
      var data := mem[mem[v].arrayPart].items;
      assert data in Blocks(owner, v);
      mem := mem[data := Pointers(mem[data].elems[index := item])];
      assert mem[data].elems[..|items|] == items;
      OneChanged(mem0, owner, contents, mem, v, Array(items));
      contents := contents[v := Array(items)];
    }

    /** 'ps2_array_dispose' */
    method ArrayDispose(v: Ptr)
      requires Valid() && IsArrayValue(v)
      modifies this
      ensures Valid() && contents == old(contents) - {v}
    {
      hide Ok;
      Represented(v);
      OneRemoved(mem, owner, contents, v);
      ghost var mem0 := mem;
      var array_ := mem[v].arrayPart;
      var data := mem[array_].items;
      Free(data);
      Free(array_);
      Free(v);
      assert mem == mem0 - Blocks(owner, v);
      owner, contents := owner - Blocks(owner, v), contents - {v};
    }

    /** 'ps2_struct_create'. The arrays are not initialized; zeros stand for whatever they hold. */
    method StructCreate(fieldCount: nat) returns (o: Ptr)
      requires Valid()
      modifies this
      ensures Valid() && o !in old(contents) && contents == old(contents)[o := Builder(fieldCount, [])]
    {
      hide Ok;
      ghost var mem0 := mem;
      NullIsFree();
      o := Allocate(StructBlock(fieldCount, 0, NULL, NULL));
      var ids := Allocate(Ints(seq(fieldCount + 1, _ => 0)));
      var values := Allocate(Pointers(seq(fieldCount + 1, _ => NULL)));
      mem := mem[o := StructBlock(fieldCount, 0, ids, values)];
      OneAdded(mem0, owner, contents, mem, o, Builder(fieldCount, []), {o, ids, values});
      owner, contents := Owning(owner, {o, ids, values}, o), contents[o := Builder(fieldCount, [])];
    }

    /** 'ps2_struct_define' */
    method StructDefine(o: Ptr, index: nat, id: int, value: Ptr)
      requires Valid() && o in contents && contents[o].Builder?
      requires index == |contents[o].defined| < contents[o].capacity
      modifies this
      ensures Valid()
      ensures var b := old(contents[o]); contents == old(contents)[o := b.(defined := b.defined + [Field(id, value)])]
    {
      hide Ok;
      Represented(o);
      ghost var mem0, fields, capacity := mem, contents[o].defined + [Field(id, value)], contents[o].capacity;
      var (ids, values) := (mem[o].fieldIds, mem[o].values);
      mem := mem[ids := Ints(mem[ids].ints[index := id])];
      mem := mem[values := Pointers(mem[values].elems[index := value])];
      mem := mem[o := mem[o].(definedCount := index + 1)];
      ZipAppended(mem0[ids].ints[..index], mem0[values].elems[..index], id, value);
      assert mem[ids].ints[..index + 1] == mem0[ids].ints[..index] + [id];
      assert mem[values].elems[..index + 1] == mem0[values].elems[..index] + [value];
      OneChanged(mem0, owner, contents, mem, o, Builder(capacity, fields));
      contents := contents[o := Builder(capacity, fields)];
    }

    /** 'ps2_struct_value': a builder whose fields are all defined becomes a value. */
    method StructValue(o: Ptr) returns (v: Ptr)
      requires Valid() && o in contents && contents[o].Builder? && |contents[o].defined| == contents[o].capacity
      modifies this
      ensures Valid() && v !in old(contents)
      ensures contents == (old(contents) - {o})[v := Struct(old(contents[o]).defined)]
    {
      hide Ok;
      NullIsFree();
      Represented(o);
      InMemory(mem, owner, contents, o);
      ghost var mem0, fields, bs := mem, contents[o].defined, Blocks(owner, o);
      v := Allocate(ValueBlock(STRUCT, NULL, o));
      OneRemoved(mem0, owner, contents, o);
      OneAdded(mem0 - bs, owner - bs, contents - {o}, mem, v, Struct(fields), bs + {v});
      NotAValue(mem0, owner, contents, v);
      owner, contents := Owning(owner - bs, bs + {v}, v), (contents - {o})[v := Struct(fields)];
    }

    /** 'ps2_fields_get', with the place in the arrays in place of pointers into them. */
    method FieldsGet(ids: Ptr, values: Ptr, from: nat, id: int, ghost fields: seq<Field>) returns (value: Ptr)
      requires ids in mem && mem[ids].Ints? && values in mem && mem[values].Pointers?
      requires from + |fields| <= |mem[ids].ints| && from + |fields| <= |mem[values].elems|
      requires FieldsAre(mem[ids].ints, mem[values].elems, from, fields) && Lookup(id, fields) != NULL
      ensures value == Lookup(id, fields)
      decreases |fields|
    {
      if mem[ids].ints[from] == id {
        return mem[values].elems[from];
      }
      value := FieldsGet(ids, values, from + 1, id, fields[1..]);
    }

    /** 'ps2_fields_set' */
    method FieldsSet(ids: Ptr, values: Ptr, from: nat, id: int, value: Ptr, ghost fields: seq<Field>)
      requires ids in mem && mem[ids].Ints? && values in mem && mem[values].Pointers? && ids != values
      requires from + |fields| <= |mem[ids].ints| && from + |fields| <= |mem[values].elems|
      requires FieldsAre(mem[ids].ints, mem[values].elems, from, fields) && Lookup(id, fields) != NULL
      modifies `mem
      ensures mem.Keys == old(mem.Keys) && (forall b | b in mem && b != values :: mem[b] == old(mem[b]))
      ensures mem[values].Pointers? && |mem[values].elems| == |old(mem[values]).elems|
      ensures forall i | 0 <= i < from :: mem[values].elems[i] == old(mem[values]).elems[i]
      ensures |Update(id, value, fields)| == |fields|
      ensures FieldsAre(mem[ids].ints, mem[values].elems, from, Update(id, value, fields))
      decreases |fields|
    {
      if mem[ids].ints[from] == id {
        mem := mem[values := Pointers(mem[values].elems[from := value])];
      } else {
        FieldsSet(ids, values, from + 1, id, value, fields[1..]);
      }
    }

    /** 'ps2_struct_get_model' */
    method StructGet(v: Ptr, id: int) returns (value: Ptr)
      requires Valid() && HasField(v, id)
      ensures value == Lookup(id, contents[v].fields)
    {
      Represented(v);
      var o := mem[v].structPart;
      ZipIs(mem[mem[o].fieldIds].ints, mem[mem[o].values].elems, contents[v].fields);
      value := FieldsGet(mem[o].fieldIds, mem[o].values, 0, id, contents[v].fields);
    }

    /** 'ps2_struct_set_model' */
    method StructSet(v: Ptr, id: int, value: Ptr)
      requires Valid() && HasField(v, id)
      modifies this
      ensures Valid() && contents == old(contents)[v := Struct(Update(id, value, old(contents[v]).fields))]
    {
      hide Ok;
      Represented(v);
      ghost var mem0, fields := mem, contents[v].fields;
      var o := mem[v].structPart;
      assert mem[o].values in Blocks(owner, v);
      ZipIs(mem[mem[o].fieldIds].ints, mem[mem[o].values].elems, fields);
      FieldsSet(mem[o].fieldIds, mem[o].values, 0, id, value, fields);
      ZipIs(mem[mem[o].fieldIds].ints, mem[mem[o].values].elems, Update(id, value, fields));
      OneChanged(mem0, owner, contents, mem, v, Struct(Update(id, value, fields)));
      contents := contents[v := Struct(Update(id, value, fields))];
    }

    /** 'ps2_struct_dispose' */
    method StructDispose(v: Ptr)
      requires Valid() && v in contents && contents[v].Struct?
      modifies this
      ensures Valid() && contents == old(contents) - {v}
    {
      hide Ok;
      Represented(v);
      OneRemoved(mem, owner, contents, v);
      ghost var mem0 := mem;
      var o := mem[v].structPart;
      var (ids, values) := (mem[o].fieldIds, mem[o].values);
      Free(ids);
      Free(values);
      Free(o);
      Free(v);
      assert mem == mem0 - Blocks(owner, v);
      owner, contents := owner - Blocks(owner, v), contents - {v};
    }

    /** 'ps2_struct_replace_owned_array': the array that the field had is disposed. */
    method StructReplaceOwnedArray(parent: Ptr, id: int, replacement: Ptr)
      requires Valid() && HasField(parent, id) && IsArrayValue(replacement)
      requires Lookup(id, contents[parent].fields) != replacement && IsArrayValue(Lookup(id, contents[parent].fields))
      modifies this
      ensures Valid()
      ensures var fields := old(contents[parent]).fields;
              contents == (old(contents) - {Lookup(id, fields)})[parent := Struct(Update(id, replacement, fields))]
    {
      hide Ok;
      var previous := StructGet(parent, id);
      StructSet(parent, id, replacement);
      ArrayDispose(previous);
    }

    /** 'ps2_array_replace_owned_array' */
    method ArrayReplaceOwnedArray(parent: Ptr, index: nat, replacement: Ptr)
      requires Valid() && IsArrayValue(parent) && index < |contents[parent].items| && IsArrayValue(replacement)
      requires var previous := contents[parent].items[index];
               previous != replacement && previous != parent && IsArrayValue(previous)
      modifies this
      ensures Valid()
      ensures var items := old(contents[parent]).items;
              contents == (old(contents) - {items[index]})[parent := Array(items[index := replacement])]
    {
      hide Ok;
      var previous := ArrayGet(parent, index);
      ArraySet(parent, index, replacement);
      ArrayDispose(previous);
    }

    /** The first part of 'main': an array, a struct that is changed, and their disposal. */
    method ExampleValues()
      requires Valid() && contents == map[]
      modifies this
      ensures Valid() && contents == map[]
    {
      hide Ok, Lookup, Update;
      var first := PlainCreate();
      var second := PlainCreate();
      var array_ := ArrayCreate(2);
      ArraySet(array_, 0, first);
      ArraySet(array_, 1, second);
      var item := ArrayGet(array_, 1);
      assert item == second;
      ExampleStruct(first, second);
      ArrayDispose(array_);
      PlainDispose(first);
      PlainDispose(second);
    }

    method ExampleStruct(first: Ptr, second: Ptr)
      requires Valid() && first != NULL && second != NULL
      modifies this
      ensures Valid() && contents == old(contents)
    {
      hide Ok;
      var builder := StructCreate(2);
      StructDefine(builder, 0, 10, first);
      StructDefine(builder, 1, 20, second);
      var object_ := StructValue(builder);
      var item := StructGet(object_, 20);
      assert item == second;
      UpdatedLookup(20, first, contents[object_].fields, 20);
      StructSet(object_, 20, first);
      item := StructGet(object_, 20);
      assert item == first;
      StructDispose(object_);
    }

    /** The second part of 'main': a child of a struct and a row of a matrix are replaced. */
    method ExampleOwners()
      requires Valid() && contents == map[]
      modifies this
      ensures Valid() && contents == map[]
    {
      hide Ok;
      var oldChild := ArrayCreate(1);
      var newChild := ArrayCreate(1);
      var builder := StructCreate(1);
      StructDefine(builder, 0, 30, oldChild);
      var parent := StructValue(builder);
      UpdatedLookup(30, newChild, contents[parent].fields, 30);
      StructReplaceOwnedArray(parent, 30, newChild);
      var item := StructGet(parent, 30);
      assert item == newChild;
      StructDispose(parent);
      ArrayDispose(newChild);
    }

    method ExampleRows()
      requires Valid() && contents == map[]
      modifies this
      ensures Valid() && contents == map[]
    {
      hide Ok;
      var oldRow := ArrayCreate(2);
      var newRow := ArrayCreate(2);
      var matrix := ArrayCreate(1);
      ArraySet(matrix, 0, oldRow);
      ArrayReplaceOwnedArray(matrix, 0, newRow);
      var item := ArrayGet(matrix, 0);
      assert item == newRow;
      ArrayDispose(matrix);
      ArrayDispose(newRow);
    }

    /** 'main': each of its assertions holds, and every block has been freed at the end. Its three parts do not share
        values; here they are run one after the other. */
    method Example()
      requires Valid() && contents == map[]
      modifies this
      ensures Valid() && mem == map[]
    {
      ExampleValues();
      ExampleOwners();
      ExampleRows();
      NothingLeft(mem, owner);
    }
  }

  /** The fields are found in the arrays from a place on. */
  predicate FieldsAre(ids: seq<int>, values: seq<Ptr>, from: nat, fields: seq<Field>)
    requires from + |fields| <= |ids| && from + |fields| <= |values|
  {
    forall i | 0 <= i < |fields| :: fields[i] == Field(ids[from + i], values[from + i])
  }

  lemma ZipIs(ids: seq<int>, values: seq<Ptr>, fields: seq<Field>)
    requires |fields| <= |ids| && |fields| <= |values|
    ensures FieldsAre(ids, values, 0, fields) <==> Zip(ids[..|fields|], values[..|fields|]) == fields
  {
    var zipped := Zip(ids[..|fields|], values[..|fields|]);
    assert forall i | 0 <= i < |fields| :: zipped[i] == Field(ids[0 + i], values[0 + i]);
  }

  lemma ZipAppended(ids: seq<int>, values: seq<Ptr>, id: int, value: Ptr)
    requires |ids| == |values|
    ensures Zip(ids + [id], values + [value]) == Zip(ids, values) + [Field(id, value)]
  {
  }

  lemma NotAValue(mem: map<Ptr, Block>, owner: map<Ptr, Ptr>, contents: map<Ptr, Content>, v: Ptr)
    requires Ok(mem, owner, contents) && v !in mem
    ensures v !in contents
  {
    if v in contents {
      InMemory(mem, owner, contents, v);
    }
  }
}
