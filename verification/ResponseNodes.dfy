/**
 Declared responses as they are held: objects whose schemas are widened in place, copied deeply before an exact status
 starts from a wildcard and before anything is changed (restscope/api_behavior_monitor/contract_monitor.py).
 */
module ResponseNodes {
  import opened Wrappers
  import opened ResponseSchema
  import opened SchemaNodes
  import opened ResponseMerging
  import opened Decimal

  /** One response: a schema node by media type, null where no schema is declared. */
  class ResponseNode {
    var contents: map<string, SchemaNode?>
    const rest: string

    ghost var Repr: set<object>
    ghost var Shape: Response

    /** The schemas are separate trees inside Repr, and Shape is the response they spell out. */
    ghost predicate Valid()
      reads this, Repr
      ensures Valid() ==> this in Repr
    {
      this in Repr && Parts()
    }

    ghost predicate Parts()
      requires this in Repr
      reads this, Repr
    {
      && Shape.rest == rest && Shape.contents.Keys == contents.Keys
      && (forall key | key in contents :: contents[key] == null <==> Shape.contents[key].None?)
      && (forall key | key in contents && contents[key] != null ::
            && contents[key] in Repr && contents[key].Repr <= Repr - {this}
            && contents[key].Valid() && Shape.contents[key] == Some(contents[key].Shape))
      && (forall m, n | m in contents && n in contents && m != n && contents[m] != null && contents[n] != null ::
            contents[m].Repr !! contents[n].Repr)
    }

    /** All of Parts but for the schema under `key`, which may have grown and changed shape. */
    ghost predicate PartsBut(key: string)
      requires this in Repr && key in contents && contents[key] != null
      reads this, Repr, contents[key], contents[key].Repr
    {
      && Shape.rest == rest && Shape.contents.Keys == contents.Keys
      && (forall k | k in contents && k != key :: contents[k] == null <==> Shape.contents[k].None?)
      && (forall k | k in contents && k != key && contents[k] != null ::
            && contents[k] in Repr && contents[k].Repr <= Repr - {this}
            && contents[k].Valid() && Shape.contents[k] == Some(contents[k].Shape)
            && contents[k].Repr !! contents[key].Repr)
      && (forall m, n | m in contents && n in contents && m != n && m != key && n != key
                        && contents[m] != null && contents[n] != null ::
            contents[m].Repr !! contents[n].Repr)
      && contents[key].Valid()
    }

    lemma Open()
      requires Valid()
      ensures this in Repr && Parts()
    {
    }

    lemma Close()
      requires this in Repr && Parts()
      ensures Valid()
    {
    }

    lemma Root()
      requires Valid()
      ensures this in Repr && Shape.rest == rest && Shape.contents.Keys == contents.Keys
      ensures forall key | key in contents :: contents[key] == null <==> Shape.contents[key].None?
    {
    }

    lemma SchemaAt(key: string)
      requires Valid() && key in contents && contents[key] != null
      ensures contents[key].Valid() && contents[key].Repr <= Repr - {this} && this in Repr
      ensures key in Shape.contents && Shape.contents[key] == Some(contents[key].Shape)
    {
    }

    constructor (rest: string)
      ensures Valid() && fresh(Repr) && Shape == Response(map[], rest) && contents == map[] && this.rest == rest
    {
      this.rest := rest;
      contents := map[];
      Repr := {this};
      Shape := Response(map[], rest);
    }

    /** The response this object spells out. */
    function Read(): (response: Response)
      requires Valid()
      reads this, Repr
      ensures response == Shape
    {
      Open();
      Response(map key | key in contents :: if contents[key] == null then None else Some(contents[key].Read()), rest)
    }

    /** Declare a media type, or its first schema, by a separate tree. */
    method SetMedia(key: string, schema: SchemaNode?)
      requires Valid() && (key in contents ==> contents[key] == null)
      requires schema != null ==> schema.Valid() && schema.Repr !! Repr
      modifies this
      ensures Valid() && Repr == old(Repr) + (if schema == null then {} else schema.Repr)
      ensures var declared := if schema == null then None else Some(schema.Shape);
              Shape == old(Shape).(contents := old(Shape).contents[key := declared])
      ensures contents == old(contents)[key := schema]
    {
      hide Valid;
      Open();
      contents := contents[key := schema];
      Shape := Shape.(contents := Shape.contents[key := if schema == null then None else Some(schema.Shape)]);
      if schema != null { Repr := Repr + schema.Repr; }
      Close();
    }

    method Clear()
      requires Valid()
      modifies this
      ensures Valid() && Repr == {this} && Shape == old(Shape).(contents := map[]) && contents == map[]
    {
      contents := map[];
      Repr := {this};
      Shape := Shape.(contents := map[]);
    }

    /** A deep copy that shares nothing with the original. */
    method Copy() returns (copy: ResponseNode)
      requires Valid()
      ensures copy.Valid() && fresh(copy.Repr) && copy.Shape == Shape
    {
      hide Valid;
      Root();
      copy := new ResponseNode(rest);
      var todo := contents.Keys;
      assert Only(Shape.contents, {}) == map[];
      while todo != {}
        invariant todo <= contents.Keys
        invariant copy.Valid() && fresh(copy.Repr) && copy.contents.Keys == contents.Keys - todo
        invariant copy.Shape == Response(Only(Shape.contents, contents.Keys - todo), rest)
        decreases todo
      {
        var key :| key in todo;
        var child: SchemaNode? := null;
        if contents[key] != null {
          SchemaAt(key);
          child := contents[key].Copy();
        }
        OnlyStep(Shape.contents, contents.Keys, todo, key);
        copy.SetMedia(key, child);
        todo := todo - {key};
      }
      OnlyAll(Shape.contents);
    }

    /** Widen the schema of a media type in place. */
    method WidenMedia(key: string, observed: SchemaNode) returns (changed: bool)
      requires Valid() && key in contents && contents[key] != null && observed.Valid() && observed.Repr !! Repr
      requires key in Shape.contents && Shape.contents[key].Some?
      modifies Repr
      ensures Valid() && fresh(Repr - old(Repr))
      ensures Shape == old(Shape).(contents :=
                old(Shape).contents[key := Some(Merge(old(Shape).contents[key].value, old(observed.Shape)))])
      ensures changed <==> Shape != old(Shape)
    {
      hide Valid, Merge;
      Open();
      ghost var before := Shape;
      changed := contents[key].MergeWith(observed);
      ghost var widened := contents[key].Shape;
      Repr := Repr + contents[key].Repr;
      Shape := Shape.(contents := Shape.contents[key := Some(widened)]);
      Close();
      SameEntry(before, key, widened);
    }

    /** Add what a body shows to the contents, naming each change. */
    method MergeBody(mediaType: Option<string>, body: Body) returns (changes: seq<Change>)
      requires Valid() && !body.InvalidJson?
      modifies Repr
      ensures Valid() && fresh(Repr - old(Repr))
      ensures Shape == old(Shape).(contents := MergedContents(old(Shape).contents, ContentKey(mediaType), body))
      ensures changes == [] <==> Shape == old(Shape)
      ensures ResponseAdded !in changes
    {
      hide Valid, Merge, Infer;
      Root();
      changes := [];
      if body.Empty? {
        if contents != map[] {
          Clear();
          changes := [ContentsCleared];
        }
        return;
      }
      var key := ContentKey(mediaType);
      if key !in contents {
        SetMedia(key, null);
        changes := [MediaAdded];
      }
      if body.BinaryBody? { return; }
      var observed: SchemaNode;
      if body.JsonBody? {
        observed := InferSchema(body.value);
      } else {
        observed := new SchemaNode(["string"]);
      }
      Root();
      if contents[key] == null {
        SetMedia(key, observed);
        changes := changes + [SchemaChanged];
      } else {
        var widened := WidenMedia(key, observed);
        if widened { changes := changes + [SchemaChanged]; }
      }
    }
  }

  lemma {:induction false} SameEntry(r: Response, key: string, schema: Schema)
    requires key in r.contents && r.contents[key].Some?
    ensures r.(contents := r.contents[key := Some(schema)]) == r <==> schema == r.contents[key].value
  {
    if schema == r.contents[key].value {
      assert r.contents[key := Some(schema)] == r.contents;
    } else {
      assert r.contents[key := Some(schema)][key] != r.contents[key];
    }
  }

  /** The responses of a list are separate trees within the objects, and spell out the shape. */
  ghost predicate Spells(list: seq<(string, ResponseNode)>, shape: Responses, objects: set<object>)
    reads objects
  {
    && |shape| == |list|
    && (forall i | 0 <= i < |list| ::
          && list[i].1 in objects && list[i].1.Repr <= objects && list[i].1.Valid()
          && shape[i] == Entry(list[i].0, list[i].1.Shape))
    && (forall i, j | 0 <= i < j < |list| :: list[i].1.Repr !! list[j].1.Repr)
  }

  /** The declared responses of one operation, in order. */
  class OperationNode {
    var byStatus: seq<(string, ResponseNode)>

    ghost var Repr: set<object>
    ghost var Shape: Responses

    ghost predicate Valid()
      reads this, Repr
      ensures Valid() ==> this in Repr
    {
      this in Repr && Spells(byStatus, Shape, Repr - {this})
    }

    constructor (byStatus: seq<(string, ResponseNode)>, ghost shape: Responses, ghost objects: set<object>)
      requires Spells(byStatus, shape, objects)
      ensures Valid() && Shape == shape && Repr == objects + {this} && this.byStatus == byStatus
    {
      this.byStatus := byStatus;
      Shape := shape;
      Repr := objects + {this};
      new;
      assert Repr - {this} == objects;
    }

    /** The responses this object spells out. */
    function Read(): (responses: Responses)
      requires Valid()
      reads this, Repr
      ensures responses == Shape
    {
      seq(|byStatus|, i requires 0 <= i < |byStatus| && Valid() reads this, Repr =>
            Entry(byStatus[i].0, byStatus[i].1.Read()))
    }

    method Locate(status: string) returns (i: nat)
      requires Valid()
      ensures i == IndexOf(Shape, status) && i <= |byStatus|
    {
      i := 0;
      while i < |byStatus| && byStatus[i].0 != status
        invariant i <= |byStatus| && forall k | 0 <= k < i :: byStatus[k].0 != status
      {
        i := i + 1;
      }
      IndexFinds(Shape, status);
    }

    /** The declared response an exact status starts from, or the length when there is none. */
    method LocateBaseline(status: nat) returns (i: nat)
      requires Valid()
      ensures i <= |byStatus| && Baseline(Shape, status) == if i < |byStatus| then Some(Shape[i].response) else None
    {
      var wildcard := Dec(status / 100) + "XX";
      i := 0;
      while i < |byStatus| && Upper(byStatus[i].0) != wildcard
        invariant i <= |byStatus| && forall k | 0 <= k < i :: Upper(byStatus[k].0) != wildcard
      {
        i := i + 1;
      }
      WildcardFirst(Shape, wildcard, i);
      if i == |byStatus| {
        IndexFinds(Shape, "default");
        i := Locate("default");
      }
    }

    /** Deep copies of all responses, sharing nothing with the originals. */
    method CopyResponses() returns (copies: seq<(string, ResponseNode)>, ghost objects: set<object>)
      requires Valid()
      ensures fresh(objects) && Spells(copies, Shape, objects)
    {
      copies, objects := [], {};
      for i := 0 to |byStatus|
        invariant fresh(objects) && Spells(copies, Shape[..i], objects)
      {
        var copy := byStatus[i].1.Copy();
        SpellsMore(copies, Shape[..i], objects, byStatus[i].0, copy);
        assert Shape[..i] + [Shape[i]] == Shape[..i + 1];
        copies, objects := copies + [(byStatus[i].0, copy)], objects + copy.Repr;
      }
      assert Shape[..|byStatus|] == Shape;
    }

    /** Put saved responses back. */
    method Restore(saved: seq<(string, ResponseNode)>, ghost shape: Responses, ghost objects: set<object>)
      requires Spells(saved, shape, objects) && this !in objects
      modifies this
      ensures Valid() && Shape == shape && Repr == objects + {this}
    {
      byStatus := saved;
      Shape := shape;
      Repr := objects + {this};
      assert Repr - {this} == objects;
    }

    method Append(status: string, node: ResponseNode)
      requires Valid() && node.Valid() && node.Repr !! Repr
      modifies this
      ensures Valid() && Repr == old(Repr) + node.Repr && Shape == old(Shape) + [Entry(status, node.Shape)]
      ensures byStatus == old(byStatus) + [(status, node)]
    {
      hide Spells;
      SpellsMore(byStatus, Shape, Repr - {this}, status, node);
      byStatus := byStatus + [(status, node)];
      Shape := Shape + [Entry(status, node.Shape)];
      assert (Repr + node.Repr) - {this} == (Repr - {this}) + node.Repr;
      Repr := Repr + node.Repr;
    }

    /** Widen one response in place by what a body shows; the other responses are not touched. */
    method MergeAt(i: nat, mediaType: Option<string>, body: Body) returns (changes: seq<Change>)
      requires Valid() && i < |byStatus| && i < |Shape| && !body.InvalidJson?
      modifies Repr
      ensures Valid() && fresh(Repr - old(Repr))
      ensures var r := old(Shape)[i].response;
              Shape == old(Shape)[i := Entry(old(Shape)[i].status,
                                             r.(contents := MergedContents(r.contents, ContentKey(mediaType), body)))]
      ensures changes == [] <==> Shape == old(Shape)
      ensures ResponseAdded !in changes
    {
      hide MergedContents, ContentKey, ResponseNode.Valid;
      var (status, node) := byStatus[i];
      changes := node.MergeBody(mediaType, body);
      Repr := Repr + node.Repr;
      Shape := Shape[i := Entry(status, node.Shape)];
    }

    /** Declare an exact status by a deep copy of its wildcard class or default. */
    method Begin(status: nat)
      requires Valid()
      modifies this
      ensures Valid() && fresh(Repr - old(Repr)) && |byStatus| == old(|byStatus|) + 1
      ensures var start := match Baseline(old(Shape), status) case Some(b) => b case None => Fresh(status);
              Shape == old(Shape) + [Entry(Dec(status), start)]
    {
      hide Valid, Baseline, ResponseNode.Valid;
      var b := LocateBaseline(status);
      var response: ResponseNode;
      if b < |byStatus| {
        ResponseAt(b);
        response := byStatus[b].1.Copy();
      } else {
        response := new ResponseNode("Observed HTTP " + Dec(status) + " response");
        Lengths();
      }
      Append(Dec(status), response);
    }

    /** Merge an observation into the declared responses in place, naming each change. */
    method MergeResponse(e: Evidence) returns (changes: seq<Change>)
      requires Valid() && !e.body.InvalidJson?
      modifies Repr
      ensures Valid() && fresh(Repr - old(Repr))
      ensures Shape == MergedResponses(old(Shape), e)
      ensures changes == [] <==> Shape == old(Shape)
      ensures ResponseAdded in changes <==> Find(old(Shape), Dec(e.status)).None?
    {
      hide Valid, MergedContents, Baseline, ContentKey, Dec, Fresh;
      ghost var start := Starting(Shape, e.status);
      ghost var merged := start.(contents := MergedContents(start.contents, ContentKey(e.mediaType), e.body));
      changes := [];
      var i := Locate(Dec(e.status));
      Lengths();
      IndexFinds(Shape, Dec(e.status));
      PutAt(Shape, Dec(e.status), merged);
      if i == |byStatus| {
        Begin(e.status);
        changes := [ResponseAdded];
      }
      var more := MergeAt(i, e.mediaType, e.body);
      changes := changes + more;
    }

    lemma Lengths()
      requires Valid()
      ensures |Shape| == |byStatus| && this in Repr
    {
    }

    lemma ResponseAt(i: nat)
      requires Valid() && i < |byStatus|
      ensures byStatus[i].1.Valid() && |Shape| == |byStatus| && byStatus[i].1.Shape == Shape[i].response
    {
    }
  }

  lemma SpellsMore(list: seq<(string, ResponseNode)>, shape: Responses, objects: set<object>, status: string,
                   node: ResponseNode)
    requires Spells(list, shape, objects) && node.Valid() && node.Repr !! objects
    ensures Spells(list + [(status, node)], shape + [Entry(status, node.Shape)], objects + node.Repr)
  {
  }
}
