/**
 * The collector's JSON encoding of a dependency forest (`dependenciesToJson`, `serializeDeps`,
 * `serializeDep`), and a small decoder for the subset of JSON the encoder produces.
 *
 * A forest is a JSON array; each node is an object with exactly the keys `k`, `v`, `s` and `d`,
 * in that order, `d` holding the node's dependencies as an array. Nothing is sorted, no
 * whitespace is written and the field strings are written as they are, without escaping.
 */
module TreeJson {
  import opened Results
  import opened DependencyTree

  /*** The encoding ***/

  /** One node: `{"k":"<key>","v":"<version>","s":"<scope>","d":[<dependencies>]}`. */
  function EncDep(d: Dep): (json: string)
    decreases d
    ensures |json| > 0 && json[0] == '{' && json[|json| - 1] == '}'
  {
    "{\"k\":\"" + d.key + "\",\"v\":\"" + d.version + "\",\"s\":\"" + d.scope + "\",\"d\":["
      + EncList(d.deps) + "]}"
  }

  /** The nodes of a list in order, separated by commas, with no comma after the last one. */
  function EncList(ds: seq<Dep>): (json: string)
    decreases ds
    ensures ds == [] <==> json == ""
    ensures ds != [] ==> json[0] == '{' && json[|json| - 1] == '}'
  {
    if |ds| == 0 then ""
    else if |ds| == 1 then EncDep(ds[0])
    else EncDep(ds[0]) + "," + EncList(ds[1..])
  }

  /** A forest: its list between brackets; the empty forest is `[]`. */
  function Enc(ds: seq<Dep>): (json: string)
    ensures |json| >= 2 && json[0] == '[' && json[|json| - 1] == ']'
    ensures ds == [] <==> json == "[]"
  {
    "[" + EncList(ds) + "]"
  }

  /** Adding a node at the end of a list adds a comma and that node's encoding, or just the node. */
  lemma {:induction false} EncListSnoc(ds: seq<Dep>, d: Dep)
    ensures EncList(ds + [d]) == if ds == [] then EncDep(d) else EncList(ds) + "," + EncDep(d)
    decreases ds
  {
    if |ds| == 1 {
      assert ds + [d] == [ds[0], d];
      assert [ds[0], d][1..] == [d];
    } else if |ds| > 1 {
      assert (ds + [d])[1..] == ds[1..] + [d];
      EncListSnoc(ds[1..], d);
      var head := EncDep(ds[0]) + ",";
      assert EncList(ds + [d]) == head + (EncList(ds[1..]) + "," + EncDep(d));
      assert EncList(ds) == head + EncList(ds[1..]);
    }
  }

  /*** The encoder: a string builder that the serializer appends to ***/

  /** A growing character buffer (the `StringBuilder` the serializer shares). */
  class TextBuffer {
    var chars: string

    constructor ()
      ensures chars == []
    {
      chars := [];
    }

    method Append(s: string)
      modifies this
      ensures chars == old(chars) + s
    {
      chars := chars + s;
    }
  }

  /** `serializeDeps`: appends each node of `deps`, and a comma after every node that has a successor. */
  method SerializeDeps(json: TextBuffer, deps: seq<Dep>)
    modifies json
    ensures json.chars == old(json.chars) + EncList(deps)
    decreases deps
  {
    var i := 0;
    while i < |deps|
      invariant 0 <= i <= |deps|
      invariant json.chars == old(json.chars) + EncList(deps[..i]) + (if 0 < i < |deps| then "," else "")
    {
      SerializeDep(json, deps[i]);
      EncListStep(old(json.chars), deps, i);
      if i + 1 < |deps| {
        json.Append(",");
      }
      i := i + 1;
    }
    assert deps[..i] == deps;
  }

  /** Appending one more node to the encoding of a prefix, after a comma unless it is the first. */
  lemma EncListStep(prefix: string, deps: seq<Dep>, i: nat)
    requires i < |deps|
    ensures prefix + EncList(deps[..i]) + (if 0 < i then "," else "") + EncDep(deps[i])
         == prefix + EncList(deps[..i + 1])
  {
    EncListSnoc(deps[..i], deps[i]);
    assert deps[..i + 1] == deps[..i] + [deps[i]];
  }

  /** `serializeDep`: appends the object for one node, its dependencies encoded recursively. */
  method SerializeDep(json: TextBuffer, dependency: Dep)
    modifies json
    ensures json.chars == old(json.chars) + EncDep(dependency)
    decreases dependency
  {
    ghost var start := json.chars;
    json.Append("{");
    json.Append("\"k\":\"");
    json.Append(dependency.key);
    json.Append("\",\"v\":\"");
    json.Append(dependency.version);
    json.Append("\",\"s\":\"");
    json.Append(dependency.scope);
    json.Append("\",\"d\":[");
    ghost var head := json.chars;
    SerializeDeps(json, dependency.deps);
    json.Append("]");
    json.Append("}");
    EncDepPieces(dependency, start, head, json.chars);
  }

  lemma Assoc(a: string, b: string, c: string)
    ensures a + b + c == a + (b + c)
  {
  }

  /** The pieces `serializeDep` appends, one after another, make up the node's encoding. */
  lemma EncDepPieces(d: Dep, start: string, head: string, done: string)
    requires head == start + "{" + "\"k\":\"" + d.key + "\",\"v\":\"" + d.version + "\",\"s\":\"" + d.scope + "\",\"d\":["
    requires done == head + EncList(d.deps) + "]" + "}"
    ensures done == start + EncDep(d)
  {
    var p1 := "{\"k\":\"";
    assert "{" + "\"k\":\"" == p1;
    Assoc(start, "{", "\"k\":\"");
    var p2 := p1 + d.key;
    Assoc(start, p1, d.key);
    var p3 := p2 + "\",\"v\":\"";
    Assoc(start, p2, "\",\"v\":\"");
    var p4 := p3 + d.version;
    Assoc(start, p3, d.version);
    var p5 := p4 + "\",\"s\":\"";
    Assoc(start, p4, "\",\"s\":\"");
    var p6 := p5 + d.scope;
    Assoc(start, p5, d.scope);
    var p7 := p6 + "\",\"d\":[";
    Assoc(start, p6, "\",\"d\":[");
    assert head == start + p7;
    var p8 := p7 + EncList(d.deps);
    Assoc(start, p7, EncList(d.deps));
    Assoc(start, p8, "]");
    Assoc(start, p8 + "]", "}");
    Assoc(p8, "]", "}");
    assert "]" + "}" == "]}";
  }

  /** `dependenciesToJson`: the forest's encoding, built in a fresh buffer. */
  method DependenciesToJson(deps: seq<Dep>) returns (json: string)
    ensures json == Enc(deps)
  {
    var buffer := new TextBuffer();
    buffer.Append("[");
    SerializeDeps(buffer, deps);
    buffer.Append("]");
    json := buffer.chars;
  }

  /*** The decoder ***/

  /** The rest of `s` after `lit`, when `s` starts with `lit`. */
  function Expect(lit: string, s: string): (rest: Option<string>)
    ensures rest.Some? <==> |lit| <= |s| && s[..|lit|] == lit
    ensures rest.Some? ==> s == lit + rest.value
  {
    if |lit| <= |s| && s[..|lit|] == lit then Some(s[|lit|..]) else None
  }

  /**
   * The body of a string whose opening quote was already read, and what follows its closing
   * quote. A backslash would start an escape sequence, which this decoder does not handle.
   */
  function ReadString(s: string): (r: Option<(string, string)>)
    decreases |s|
    ensures r.Some? ==> s == r.value.0 + "\"" + r.value.1
    ensures r.Some? ==> '"' !in r.value.0 && '\\' !in r.value.0
  {
    if s == [] || s[0] == '\\' then None
    else if s[0] == '"' then Some(([], s[1..]))
    else match ReadString(s[1..])
      case None => None
      case Some((body, rest)) => Some(([s[0]] + body, rest))
  }

  /** An array of objects and what follows its closing bracket. */
  function ParseArray(s: string): (r: Option<(seq<Dep>, string)>)
    decreases |s|, 0
    ensures r.Some? ==> |r.value.1| < |s|
  {
    if |s| > 0 && s[0] == '[' then ParseItems(s[1..]) else None
  }

  /** The items of an array after its opening bracket, through the closing bracket. */
  function ParseItems(s: string): (r: Option<(seq<Dep>, string)>)
    decreases |s|, 2
    ensures r.Some? ==> |r.value.1| < |s|
  {
    if |s| > 0 && s[0] == ']' then Some(([], s[1..])) else ParseElements(s)
  }

  /** One or more objects separated by commas, through the array's closing bracket. */
  function ParseElements(s: string): (r: Option<(seq<Dep>, string)>)
    decreases |s|, 1
    ensures r.Some? ==> |r.value.1| < |s|
  {
    match ParseObject(s)
    case None => None
    case Some((d, rest)) =>
      if |rest| > 0 && rest[0] == ',' then
        match ParseElements(rest[1..])
        case None => None
        case Some((ds, rest')) => Some(([d] + ds, rest'))
      else if |rest| > 0 && rest[0] == ']' then Some(([d], rest[1..]))
      else None
  }

  /** One object with the keys `k`, `v`, `s`, `d` in that order, and what follows it. */
  function ParseObject(s: string): (r: Option<(Dep, string)>)
    decreases |s|, 0
    ensures r.Some? ==> |r.value.1| < |s|
  {
    var afterOpen :- Expect("{\"k\":\"", s);
    var key :- ReadString(afterOpen);
    var afterKey :- Expect(",\"v\":\"", key.1);
    var version :- ReadString(afterKey);
    var afterVersion :- Expect(",\"s\":\"", version.1);
    var scope :- ReadString(afterVersion);
    var afterScope :- Expect(",\"d\":", scope.1);
    var deps :- ParseArray(afterScope);
    var rest :- Expect("}", deps.1);
    Some((Dep(key.0, version.0, scope.0, deps.0), rest))
  }

  /** The forest a whole string encodes, if it is exactly one array. */
  function Decode(s: string): Option<seq<Dep>> {
    match ParseArray(s)
    case Some((ds, rest)) => if rest == [] then Some(ds) else None
    case None => None
  }

  /*** Round trip ***/

  /** A field string the encoding carries verbatim: no quote and no backslash. */
  predicate Plain(s: string) {
    '"' !in s && '\\' !in s
  }

  /** Every field of the node and of its descendants is plain. */
  predicate Clean(d: Dep)
    decreases d
  {
    Plain(d.key) && Plain(d.version) && Plain(d.scope) && CleanAll(d.deps)
  }

  predicate CleanAll(ds: seq<Dep>)
    decreases ds
  {
    forall i :: 0 <= i < |ds| ==> Clean(ds[i])
  }

  lemma {:induction false} ReadPlainString(body: string, rest: string)
    requires Plain(body)
    ensures ReadString(body + "\"" + rest) == Some((body, rest))
    decreases |body|
  {
    if body != [] {
      assert (body + "\"" + rest)[1..] == body[1..] + "\"" + rest;
      ReadPlainString(body[1..], rest);
      assert [body[0]] + body[1..] == body;
    }
  }

  lemma ExpectPrefix(lit: string, rest: string)
    ensures Expect(lit, lit + rest) == Some(rest)
  {
    assert (lit + rest)[..|lit|] == lit;
    assert (lit + rest)[|lit|..] == rest;
  }

  /** The decoder reads back one encoded clean node, whatever follows it. */
  lemma {:induction false} ObjectRoundTrip(d: Dep, rest: string)
    requires Clean(d)
    ensures ParseObject(EncDep(d) + rest) == Some((d, rest))
    decreases d, 2
  {
    var afterDeps := "}" + rest;
    var arrayText := "[" + EncList(d.deps) + "]" + afterDeps;
    var afterScope := ",\"d\":" + arrayText;
    var afterVersion := d.scope + "\"" + afterScope;
    var afterKey := d.version + "\"" + (",\"s\":\"" + afterVersion);
    var afterOpen := d.key + "\"" + (",\"v\":\"" + afterKey);
    assert "\",\"v\":\"" == "\"" + ",\"v\":\"";
    assert "\",\"s\":\"" == "\"" + ",\"s\":\"";
    assert "\",\"d\":[" == "\"" + ",\"d\":" + "[";
    assert "]}" == "]" + "}";
    assert EncDep(d) + rest == "{\"k\":\"" + afterOpen;
    ExpectPrefix("{\"k\":\"", afterOpen);
    ReadPlainString(d.key, ",\"v\":\"" + afterKey);
    ExpectPrefix(",\"v\":\"", afterKey);
    ReadPlainString(d.version, ",\"s\":\"" + afterVersion);
    ExpectPrefix(",\"s\":\"", afterVersion);
    ReadPlainString(d.scope, afterScope);
    ExpectPrefix(",\"d\":", arrayText);
    ArrayRoundTrip(d.deps, afterDeps);
    ExpectPrefix("}", rest);
  }

  /** The decoder reads back an encoded clean array, whatever follows it. */
  lemma {:induction false} ArrayRoundTrip(ds: seq<Dep>, rest: string)
    requires CleanAll(ds)
    ensures ParseArray("[" + EncList(ds) + "]" + rest) == Some((ds, rest))
    decreases ds, 1
  {
    var s := "[" + EncList(ds) + "]" + rest;
    assert s[1..] == EncList(ds) + "]" + rest;
    if ds == [] {
      assert s[1..] == "]" + rest;
    } else {
      ElementsRoundTrip(ds, rest);
    }
  }

  /** The decoder reads back a non-empty encoded clean list and the bracket that closes it. */
  lemma {:induction false} ElementsRoundTrip(ds: seq<Dep>, rest: string)
    requires ds != [] && CleanAll(ds)
    ensures ParseElements(EncList(ds) + "]" + rest) == Some((ds, rest))
    decreases ds, 0
  {
    if |ds| == 1 {
      assert EncList(ds) + "]" + rest == EncDep(ds[0]) + ("]" + rest);
      ObjectRoundTrip(ds[0], "]" + rest);
      assert [ds[0]] == ds;
    } else {
      var tail := EncList(ds[1..]) + "]" + rest;
      assert EncList(ds) + "]" + rest == EncDep(ds[0]) + ("," + tail);
      ObjectRoundTrip(ds[0], "," + tail);
      assert ("," + tail)[1..] == tail;
      ElementsRoundTrip(ds[1..], rest);
      assert [ds[0]] + ds[1..] == ds;
    }
  }

  /** Decoding an encoded forest whose strings are plain gives back the forest. */
  lemma DecodeEnc(ds: seq<Dep>)
    requires CleanAll(ds)
    ensures Decode(Enc(ds)) == Some(ds)
  {
    ArrayRoundTrip(ds, []);
    assert "[" + EncList(ds) + "]" + [] == Enc(ds);
  }

  /** The encoding tells apart any two different forests whose strings are plain. */
  lemma EncInjective(a: seq<Dep>, b: seq<Dep>)
    requires CleanAll(a) && CleanAll(b)
    requires Enc(a) == Enc(b)
    ensures a == b
  {
    DecodeEnc(a);
    DecodeEnc(b);
  }
}
