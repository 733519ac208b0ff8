/**
 The same inference and widening as they run: schema nodes linked through their
 properties and items, updated in place
 (restscope/api_behavior_monitor/contract_monitor.py).
 */
module SchemaNodes {
  import opened Wrappers
  import opened ResponseSchema

  class SchemaNode {
    var types: seq<string>
    var properties: map<string, SchemaNode>
    var items: SchemaNode?

    ghost var Repr: set<SchemaNode>
    ghost var Shape: Schema

    /** A tree: children own disjoint parts of Repr, and Shape is the schema they spell out. */
    ghost predicate Valid()
      reads this, Repr
      ensures Valid() ==> this in Repr
      decreases Repr, 1
    {
      this in Repr && Parts()
    }

    ghost predicate Parts()
      requires this in Repr
      reads this, Repr
      decreases Repr, 0
    {
      && Shape.types == types
      && Shape.properties.Keys == properties.Keys
      && (forall name | name in properties ::
            && properties[name] in Repr && properties[name].Repr <= Repr - {this}
            && properties[name].Valid()
            && properties[name].Shape == Shape.properties[name])
      && (forall m, n | m in properties && n in properties && m != n :: properties[m].Repr !! properties[n].Repr)
      && (items == null <==> Shape.items.None?)
      && (items != null ==>
            && items in Repr && items.Repr <= Repr - {this}
            && items.Valid()
            && Shape.items == Some(items.Shape)
            && forall name | name in properties :: properties[name].Repr !! items.Repr)
    }

    /** All of Parts but for the child `name`, which may have grown and changed shape. */
    ghost predicate PartsBut(name: string)
      requires this in Repr && name in properties
      reads this, Repr, properties[name], properties[name].Repr
    {
      && Shape.types == types
      && Shape.properties.Keys == properties.Keys
      && (forall n | n in properties && n != name ::
            && properties[n] in Repr && properties[n].Repr <= Repr - {this}
            && properties[n].Valid()
            && properties[n].Shape == Shape.properties[n]
            && properties[n].Repr !! properties[name].Repr)
      && (forall m, n | m in properties && n in properties && m != n && m != name && n != name ::
            properties[m].Repr !! properties[n].Repr)
      && properties[name].Valid() && this !in properties[name].Repr
      && (items == null <==> Shape.items.None?)
      && (items != null ==>
            && items in Repr && items.Repr <= Repr - {this}
            && items.Valid()
            && Shape.items == Some(items.Shape)
            && items.Repr !! properties[name].Repr
            && forall n | n in properties && n != name :: properties[n].Repr !! items.Repr)
    }

    lemma Open()
      requires Valid()
      ensures this in Repr && Parts()
    {
    }

    lemma Close()
      requires this in Repr && Parts()
      ensures Valid()
    {
    }

    lemma Root()
      requires Valid()
      ensures this in Repr && Shape.types == types && Shape.properties.Keys == properties.Keys
      ensures items == null <==> Shape.items.None?
    {
    }

    lemma PropertyAt(name: string)
      requires Valid() && name in properties
      ensures properties[name].Valid() && properties[name].Repr <= Repr - {this} && this in Repr
      ensures name in Shape.properties && properties[name].Shape == Shape.properties[name]
    {
    }

    lemma ItemsAt()
      requires Valid() && items != null
      ensures items.Valid() && items.Repr <= Repr - {this} && this in Repr
      ensures Shape.items == Some(items.Shape)
    {
    }

    constructor (types: seq<string>)
      ensures Valid() && fresh(Repr) && Repr == {this}
      ensures Shape == Schema(types, map[], None) && properties == map[] && items == null
      ensures this.types == types
    {
      this.types := types;
      properties := map[];
      items := null;
      Repr := {this};
      Shape := Schema(types, map[], None);
    }

    /** Attach or replace one property by a separate tree. */
    method SetProperty(name: string, child: SchemaNode)
      requires Valid() && child.Valid() && child.Repr !! Repr
      requires name !in properties
      modifies this
      ensures Valid() && Repr == old(Repr) + child.Repr
      ensures Shape == old(Shape).(properties := old(Shape).properties[name := child.Shape])
      ensures items == old(items) && properties == old(properties)[name := child] && types == old(types)
    {
      hide Valid;
      Open();
      properties := properties[name := child];
      Repr := Repr + child.Repr;
      Shape := Shape.(properties := Shape.properties[name := child.Shape]);
      Close();
    }

    method SetItems(child: SchemaNode)
      requires Valid() && child.Valid() && child.Repr !! Repr && items == null
      modifies this
      ensures Valid() && Repr == old(Repr) + child.Repr
      ensures Shape == old(Shape).(items := Some(child.Shape))
      ensures items == child && properties == old(properties) && types == old(types)
    {
      hide Valid;
      Open();
      items := child;
      Repr := Repr + child.Repr;
      Shape := Shape.(items := Some(child.Shape));
      Close();
    }

    /** The schema this tree spells out. */
    function Read(): (schema: Schema)
      requires Valid()
      reads this, Repr
      ensures schema == Shape
      decreases Repr
    {
      Open();
      Schema(types,
             map name | name in properties :: properties[name].Read(),
             if items == null then None else Some(items.Read()))
    }

    /** A deep copy that shares nothing with the original. */
    method Copy() returns (copy: SchemaNode)
      requires Valid()
      ensures copy.Valid() && fresh(copy.Repr) && copy.Shape == Shape
      decreases Repr
    {
      hide Valid;
      Root();
      copy := new SchemaNode(types);
      var todo := properties.Keys;
      assert Only(Shape.properties, {}) == map[];
      while todo != {}
        invariant todo <= properties.Keys
        invariant copy.Valid() && fresh(copy.Repr)
        invariant copy.items == null && copy.properties.Keys == properties.Keys - todo
        invariant copy.Shape == Schema(types, Only(Shape.properties, properties.Keys - todo), None)
        decreases todo
      {
        var name :| name in todo;
        PropertyAt(name);
        var child := properties[name].Copy();
        copy.SetProperty(name, child);
        OnlyStep(Shape.properties, properties.Keys, todo, name);
        todo := todo - {name};
      }
      OnlyAll(Shape.properties);
      if items != null {
        ItemsAt();
        var child := items.Copy();
        copy.SetItems(child);
      }
    }

    /** Widen one property by a separate tree, or adopt a copy of it. */
    method MergeProperty(name: string, child: SchemaNode) returns (changed: bool)
      requires Valid() && child.Valid() && child.Repr !! Repr
      modifies Repr
      ensures Valid() && fresh(Repr - old(Repr))
      ensures Shape == WithProperty(old(Shape), name, old(child.Shape))
      ensures changed <==> Shape != old(Shape)
      decreases child.Repr, 3
    {
      if name !in properties {
        var copy := child.Copy();
        SetProperty(name, copy);
        return true;
      }
      changed := WidenProperty(name, child);
    }

    method WidenProperty(name: string, child: SchemaNode) returns (changed: bool)
      requires Valid() && child.Valid() && child.Repr !! Repr && name in properties
      modifies Repr
      ensures Valid() && fresh(Repr - old(Repr))
      ensures Shape == WithProperty(old(Shape), name, old(child.Shape))
      ensures changed <==> Shape != old(Shape)
      decreases child.Repr, 2
    {
      hide Valid, Merge;
      Open();
      var current := properties[name];
      changed := current.MergeWith(child);
      Readopt(name);
    }

    /** Bring Repr and Shape up to date with a child that was widened. */
    ghost method Readopt(name: string)
      requires this in Repr && name in properties && PartsBut(name)
      modifies this`Repr, this`Shape
      ensures Valid() && Repr == old(Repr) + old(properties[name].Repr)
      ensures Shape == old(Shape).(properties := old(Shape).properties[name := old(properties[name].Shape)])
    {
      hide Valid;
      Repr := Repr + properties[name].Repr;
      Shape := Shape.(properties := Shape.properties[name := properties[name].Shape]);
      Close();
    }

    method MergeItems(child: SchemaNode) returns (changed: bool)
      requires Valid() && child.Valid() && child.Repr !! Repr
      modifies Repr
      ensures Valid() && fresh(Repr - old(Repr))
      ensures Shape == WithItems(old(Shape), old(child.Shape))
      ensures changed <==> Shape != old(Shape)
      decreases child.Repr, 3
    {
      if items == null {
        var copy := child.Copy();
        SetItems(copy);
        return true;
      }
      changed := WidenItems(child);
    }

    method WidenItems(child: SchemaNode) returns (changed: bool)
      requires Valid() && child.Valid() && child.Repr !! Repr && items != null
      modifies Repr
      ensures Valid() && fresh(Repr - old(Repr))
      ensures Shape == WithItems(old(Shape), old(child.Shape))
      ensures changed <==> Shape != old(Shape)
      decreases child.Repr, 2
    {
      hide Valid, Merge;
      Open();
      changed := items.MergeWith(child);
      Repr := Repr + items.Repr;
      Shape := Shape.(items := Some(items.Shape));
      Close();
    }

    /** Add the observed kinds that are not allowed yet. */
    method MergeTypes(observed: seq<string>) returns (changed: bool)
      requires Valid()
      modifies this`types, this`Shape
      ensures Valid()
      ensures types == MergedTypes(old(types), observed)
      ensures Shape == old(Shape).(types := types)
      ensures changed <==> types != old(types)
    {
      hide Valid;
      Open();
      AppendMissingLists(types, observed);
      changed := true;
      if observed == [] {
        changed := false;
      } else if types == [] {
        types := observed;
      } else if Listed(observed, types) {
        changed := false;
      } else if observed == ["integer"] && "number" in types {
        changed := false;
      } else {
        var merged := types;
        for i := 0 to |observed|
          invariant AppendMissing(merged, observed[i..]) == AppendMissing(types, observed)
        {
          if observed[i] !in merged {
            merged := merged + [observed[i]];
          }
        }
        types := merged;
      }
      Shape := Shape.(types := types);
      Close();
    }

    /** Widen this tree by a separate observed one, reporting whether anything changed. */
    method MergeWith(observed: SchemaNode) returns (changed: bool)
      requires Valid() && observed.Valid() && observed.Repr !! Repr
      modifies Repr
      ensures Valid() && fresh(Repr - old(Repr))
      ensures Shape == Merge(old(Shape), old(observed.Shape))
      ensures changed <==> Shape != old(Shape)
      decreases observed.Repr, 1
    {
      hide Valid, MergedTypes;
      Root();
      observed.Root();
      ghost var before, seen := Shape, observed.Shape;
      changed := MergeTypes(observed.types);
      var hasObject := "object" in observed.types && "object" in types;
      var hasArray := "array" in observed.types && "array" in types;
      MergeUnfolds(before, seen);
      if hasObject {
        var c := MergeProperties(observed);
        changed := changed || c;
      }
      if hasArray && observed.items != null {
        observed.ItemsAt();
        var c := MergeItems(observed.items);
        changed := changed || c;
      }
    }

    /** Widen by every property of the observed tree. */
    method MergeProperties(observed: SchemaNode) returns (changed: bool)
      requires Valid() && observed.Valid() && observed.Repr !! Repr
      modifies Repr
      ensures Valid() && fresh(Repr - old(Repr))
      ensures Shape == old(Shape).(properties := AllWidened(old(Shape).properties, old(observed.Shape).properties))
      ensures changed <==> Shape != old(Shape)
      decreases observed.Repr, 0
    {
      hide Valid, Merge;
      Root();
      observed.Root();
      ghost var start, seen := Shape, observed.Shape;
      changed := false;
      var todo := observed.properties.Keys;
      ghost var done: set<string> := {};
      NoneWidened(start.properties, seen.properties);
      while todo != {}
        invariant todo <= observed.properties.Keys && done == observed.properties.Keys - todo
        invariant Valid() && fresh(Repr - old(Repr))
        invariant observed.Valid() && observed.Repr !! Repr
        invariant Shape == start.(properties := Widened(start.properties, seen.properties, done))
        invariant !changed ==> Shape == start
        invariant changed ==> AllWidened(start.properties, seen.properties) != start.properties
        decreases todo
      {
        var name :| name in todo;
        observed.PropertyAt(name);
        WidenedStep(start, seen.properties, done, name);
        var c := MergeProperty(name, observed.properties[name]);
        changed := changed || c;
        todo := todo - {name};
        done := done + {name};
      }
      WidenedOver(start.properties, seen.properties, done);
    }
  }

  /** The schema of one observed value, as a fresh tree. */
  method InferSchema(v: Json) returns (node: SchemaNode)
    ensures node.Valid() && fresh(node.Repr) && node.Shape == Infer(v)
    decreases v
  {
    match v
    case JNull => node := new SchemaNode(["null"]);
    case JBool(_) => node := new SchemaNode(["boolean"]);
    case JInt(_) => node := new SchemaNode(["integer"]);
    case JFloat(_) => node := new SchemaNode(["number"]);
    case JText(_) => node := new SchemaNode(["string"]);
    case JArray(elements) => node := InferArray(v);
    case JObject(members) => node := InferObject(v);
  }

  method InferArray(v: Json) returns (node: SchemaNode)
    requires v.JArray?
    ensures node.Valid() && fresh(node.Repr) && node.Shape == Infer(v)
    decreases v, 0
  {
    var elements := v.elements;
    var itemSchema: SchemaNode? := null;
    for i := 0 to |elements|
      invariant itemSchema == null <==> InferItems(elements[..i]).None?
      invariant itemSchema != null ==> itemSchema.Valid() && fresh(itemSchema.Repr)
      invariant itemSchema != null ==> InferItems(elements[..i]) == Some(itemSchema.Shape)
    {
      assert elements[..i + 1][..i] == elements[..i];
      assert elements[i] in elements;
      var inferred := InferSchema(elements[i]);
      if itemSchema == null {
        itemSchema := inferred;
      } else {
        var _ := itemSchema.MergeWith(inferred);
      }
    }
    assert elements[..|elements|] == elements;
    node := new SchemaNode(["array"]);
    if itemSchema != null {
      node.SetItems(itemSchema);
    }
  }

  method InferObject(v: Json) returns (node: SchemaNode)
    requires v.JObject?
    ensures node.Valid() && fresh(node.Repr) && node.Shape == Infer(v)
    decreases v, 0
  {
    var members := v.members;
    ghost var goal := Infer(v).properties;
    node := new SchemaNode(["object"]);
    var todo := members.Keys;
    assert Only(goal, members.Keys - todo) == map[];
    while todo != {}
      invariant todo <= members.Keys
      invariant node.Valid() && fresh(node.Repr)
      invariant node.properties.Keys == members.Keys - todo
      invariant node.Shape == Schema(["object"], Only(goal, members.Keys - todo), None)
      decreases todo
    {
      var name :| name in todo;
      var child := InferSchema(members[name]);
      OnlyStep(goal, members.Keys, todo, name);
      node.SetProperty(name, child);
      todo := todo - {name};
    }
    OnlyAll(goal);
  }

  function WithProperty(s: Schema, name: string, child: Schema): Schema {
    s.(properties := s.properties[name := if name in s.properties then Merge(s.properties[name], child) else child])
  }

  function WithItems(s: Schema, child: Schema): Schema {
    s.(items := Some(if s.items.Some? then Merge(s.items.value, child) else child))
  }

  /** Properties after widening by the observed ones named in `done`. */
  ghost function Widened(target: map<string, Schema>, observed: map<string, Schema>, done: set<string>)
    : map<string, Schema> {
    map name | name in target.Keys + observed.Keys && (name in target || name in done) ::
      if name !in target then observed[name]
      else if name in observed && name in done then Merge(target[name], observed[name])
      else target[name]
  }

  ghost function AllWidened(target: map<string, Schema>, observed: map<string, Schema>): map<string, Schema> {
    Widened(target, observed, observed.Keys)
  }

  lemma NoneWidened(target: map<string, Schema>, observed: map<string, Schema>)
    ensures Widened(target, observed, {}) == target
  {
  }

  lemma WidenedOver(target: map<string, Schema>, observed: map<string, Schema>, done: set<string>)
    requires done == observed.Keys - {}
    ensures Widened(target, observed, done) == AllWidened(target, observed)
  {
    assert done == observed.Keys;
  }

  /** One more property: the next stage, and what a difference there says about the whole. */
  lemma WidenedStep(start: Schema, observed: map<string, Schema>, done: set<string>, name: string)
    requires name in observed && name !in done
    ensures var stage := start.(properties := Widened(start.properties, observed, done));
            && WithProperty(stage, name, observed[name])
               == start.(properties := Widened(start.properties, observed, done + {name}))
            && (WithProperty(stage, name, observed[name]) != stage ==>
                  AllWidened(start.properties, observed) != start.properties)
  {
    hide Merge;
    var target := start.properties;
    var stage := start.(properties := Widened(target, observed, done));
    assert WithProperty(stage, name, observed[name]).properties == Widened(target, observed, done + {name});
    if WithProperty(stage, name, observed[name]) == stage {
    } else if name in target {
      assert stage.properties[name] == target[name];
      assert AllWidened(target, observed)[name] == Merge(target[name], observed[name]);
      assert stage.properties[name := target[name]] == stage.properties;
    } else {
      assert name in AllWidened(target, observed);
    }
  }

  /** A merge, as the stages of the in-place update. */
  lemma MergeUnfolds(target: Schema, observed: Schema)
    ensures var types := MergedTypes(target.types, observed.types);
            Merge(target, observed) ==
            Schema(types,
                   if "object" in observed.types && "object" in types
                   then AllWidened(target.properties, observed.properties) else target.properties,
                   if "array" in observed.types && "array" in types && observed.items.Some?
                   then WithItems(target, observed.items.value).items else target.items)
  {
    var types := MergedTypes(target.types, observed.types);
    if "object" in observed.types && "object" in types {
      assert Merge(target, observed).properties == AllWidened(target.properties, observed.properties);
    }
  }

  ghost function Only<T>(m: map<string, T>, names: set<string>): map<string, T> {
    map name | name in m && name in names :: m[name]
  }

  lemma OnlyAll<T>(m: map<string, T>)
    ensures Only(m, m.Keys) == m
    ensures Only(m, m.Keys - {}) == m
  {
    assert m.Keys - {} == m.Keys;
  }

  lemma OnlyStep<T>(m: map<string, T>, names: set<string>, todo: set<string>, name: string)
    requires name in todo && todo <= names && name in m
    ensures Only(m, names - (todo - {name})) == Only(m, names - todo)[name := m[name]]
  {
  }
}
