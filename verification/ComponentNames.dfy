/** Component references and their escaping (restscope/openapi_parser/document_builder.py, section 4 of RFC 6901). */
module ComponentNames {
  import opened Wrappers

  datatype NameError = NotLocal | NotOneComponent | Unavailable

  /** Replace every occurrence of one character. */
  function ReplaceChar(s: string, c: char, text: string): string {
    if s == "" then "" else (if s[0] == c then text else [s[0]]) + ReplaceChar(s[1..], c, text)
  }

  /** Replace a two-character pattern, left to right without overlap. */
  function ReplacePair(s: string, a: char, b: char, text: string): string {
    if |s| < 2 then s
    else if s[0] == a && s[1] == b then text + ReplacePair(s[2..], a, b, text)
    else [s[0]] + ReplacePair(s[1..], a, b, text)
  }

  function Encode(name: string): string {
    ReplaceChar(ReplaceChar(name, '~', "~0"), '/', "~1")
  }

  function Decode(encoded: string): string {
    ReplacePair(ReplacePair(encoded, '~', '1', "/"), '~', '0', "~")
  }

  const COMPONENTS := "#/components/schemas/"
  const DEFINITIONS := "#/definitions/"

  function ComponentRef(name: string): string {
    COMPONENTS + Encode(name)
  }

  function NameFromRef(refPath: string, known: set<string>): (r: Result<string, NameError>)
    ensures r.Ok? ==> r.value in known
  {
    var start := if COMPONENTS <= refPath then |COMPONENTS| else if DEFINITIONS <= refPath then |DEFINITIONS| else 0;
    if start == 0 then Err(NotLocal)
    else
      var encoded := refPath[start..];
      if encoded == "" || '/' in encoded then Err(NotOneComponent)
      else if Decode(encoded) !in known then Err(Unavailable)
      else Ok(Decode(encoded))
  }

  /** Escaping slashes in a text whose tildes are escaped already is undone without touching the tildes. */
  lemma {:induction false} UndoSlashes(name: string)
    ensures ReplacePair(Encode(name), '~', '1', "/") == ReplaceChar(name, '~', "~0")
  {
    if name != "" {
      var tail, rest := name[1..], Encode(name[1..]);
      UndoSlashes(tail);
      EncodeStep(name);
      if name[0] == '~' {
        assert Encode(name)[0] == '~' && Encode(name)[1..] == "0" + rest;
        assert ("0" + rest)[1..] == rest;
        PairSkips('0', rest);
      } else if name[0] == '/' {
        assert Encode(name)[2..] == rest;
      } else {
        PairSkips(name[0], rest);
      }
    }
  }

  lemma {:induction false} EncodeStep(name: string)
    requires name != ""
    ensures Encode(name)
              == (if name[0] == '~' then "~0" else if name[0] == '/' then "~1" else [name[0]]) + Encode(name[1..])
  {
    var inner := ReplaceChar(name[1..], '~', "~0");
    if name[0] == '~' {
      assert ReplaceChar(name, '~', "~0") == "~0" + inner;
      assert ("~0" + inner)[1..] == "0" + inner;
      assert ("0" + inner)[1..] == inner;
      var rest := ReplaceChar(inner, '/', "~1");
      assert ReplaceChar("0" + inner, '/', "~1") == "0" + rest;
      assert ReplaceChar("~0" + inner, '/', "~1") == "~" + ("0" + rest);
      assert "~" + ("0" + rest) == "~0" + rest;
    } else {
      assert ReplaceChar(name, '~', "~0") == [name[0]] + inner;
      assert ([name[0]] + inner)[1..] == inner;
    }
  }

  /** A character other than a tilde starts no pattern. */
  lemma {:induction false} PairSkips(c: char, rest: string)
    requires c != '~'
    ensures ReplacePair([c] + rest, '~', '1', "/") == [c] + ReplacePair(rest, '~', '1', "/")
    ensures ReplacePair([c] + rest, '~', '0', "~") == [c] + ReplacePair(rest, '~', '0', "~")
  {
    assert ([c] + rest)[1..] == rest;
  }

  lemma {:induction false} UndoTildes(name: string)
    ensures ReplacePair(ReplaceChar(name, '~', "~0"), '~', '0', "~") == name
  {
    if name != "" {
      var rest := ReplaceChar(name[1..], '~', "~0");
      UndoTildes(name[1..]);
      if name[0] == '~' {
        assert ("~0" + rest)[2..] == rest;
      } else {
        PairSkips(name[0], rest);
      }
    }
  }

  lemma {:induction false} EncodedHasNoSlash(name: string)
    ensures '/' !in Encode(name) && (name != "" ==> Encode(name) != "")
  {
    if name != "" {
      EncodeStep(name);
      EncodedHasNoSlash(name[1..]);
    }
  }

  /** Decoding what was encoded gives the name back. */
  lemma {:induction false} DecodeEncode(name: string)
    ensures Decode(Encode(name)) == name
  {
    UndoSlashes(name);
    UndoTildes(name);
  }

  /** An emitted reference reads back as exactly the component it was made for. */
  lemma {:induction false} EmittedRefResolves(name: string, known: set<string>)
    requires name in known
    ensures NameFromRef(ComponentRef(name), known) == if name == "" then Err(NotOneComponent) else Ok(name)
  {
    hide Encode, Decode;
    var refPath := ComponentRef(name);
    assert refPath[|COMPONENTS|..] == Encode(name);
    EncodedHasNoSlash(name);
    DecodeEncode(name);
    EncodeEmpty();
  }

  /** A reference is read exactly when it is one of the two places and one known name. */
  lemma {:induction false} RefsRead(refPath: string, known: set<string>)
    ensures var here, r := COMPONENTS <= refPath || DEFINITIONS <= refPath, NameFromRef(refPath, known);
            && (r == Err(NotLocal) <==> !here)
            && (forall encoded: string | refPath in {COMPONENTS + encoded, DEFINITIONS + encoded} ::
                  && (r == Err(NotOneComponent) <==> encoded == "" || '/' in encoded)
                  && (r.Ok? <==> encoded != "" && '/' !in encoded && Decode(encoded) in known)
                  && (r.Ok? ==> r.value == Decode(encoded)))
  {
    hide Decode;
    Apart();
    forall encoded: string
      ensures (COMPONENTS + encoded)[|COMPONENTS|..] == encoded && (DEFINITIONS + encoded)[|DEFINITIONS|..] == encoded
      ensures !(COMPONENTS <= DEFINITIONS + encoded)
    {
      assert (DEFINITIONS + encoded)[2] == 'd';
    }
  }

  lemma {:induction false} Apart()
    ensures COMPONENTS[2] == 'c' && DEFINITIONS[2] == 'd'
  {
  }

  lemma {:induction false} EncodeEmpty()
    ensures Encode("") == ""
  {
  }
}
