/** Parsed configuration trees and the text codecs that read and write them. */
module ConfigTree {
  import opened Strings

  /** A configuration value. `TextList` is a list the program built itself (Go's
      []string); a parser yields an `Array` for it. */
  datatype Value =
    | Table(entries: map<string, Value>)
    | Array(items: seq<Value>)
    | TextList(texts: seq<string>)
    | Text(text: string)
    | Flag(flag: bool)
    | Number(number: int)
    | Other(id: int)

  type Tree = map<string, Value>

  /** The value a parser gives back for a rendered one. */
  function Reparsed(v: Value): Value {
    match v
    case Table(entries) => Table(map k | k in entries :: Reparsed(entries[k]))
    case Array(items) => Array(seq(|items|, i requires 0 <= i < |items| => Reparsed(items[i])))
    case TextList(texts) => Array(Texts(texts))
    case _ => v
  }

  function Texts(texts: seq<string>): (items: seq<Value>)
    ensures |items| == |texts|
  {
    seq(|texts|, i requires 0 <= i < |texts| => Text(texts[i]))
  }

  function ReparsedTree(t: Tree): Tree {
    map k | k in t :: Reparsed(t[k])
  }

  lemma ReparsedUpdate(t: Tree, key: string, v: Value)
    ensures ReparsedTree(t[key := v]) == ReparsedTree(t)[key := Reparsed(v)]
  {
  }

  lemma {:induction false} ReparsedTwice(v: Value)
    ensures Reparsed(Reparsed(v)) == Reparsed(v)
  {
    match v
    case Table(entries) =>
      forall k | k in entries
        ensures Reparsed(Reparsed(entries[k])) == Reparsed(entries[k])
      {
        ReparsedTwice(entries[k]);
      }
    case Array(items) =>
      forall i | 0 <= i < |items|
        ensures Reparsed(Reparsed(items[i])) == Reparsed(items[i])
      {
        ReparsedTwice(items[i]);
      }
    case _ =>
  }

  lemma ReparsedTreeTwice(t: Tree)
    ensures ReparsedTree(ReparsedTree(t)) == ReparsedTree(t)
  {
    forall k | k in t
      ensures Reparsed(Reparsed(t[k])) == Reparsed(t[k])
    {
      ReparsedTwice(t[k]);
    }
  }

  /** White space as Go's unicode.IsSpace has it. */
  predicate IsSpace(c: char) {
    || c == ' ' || '\t' <= c <= '\r' || c == '\U{85}' || c == '\U{A0}' || c == '\U{1680}'
    || '\U{2000}' <= c <= '\U{200A}' || c == '\U{2028}' || c == '\U{2029}' || c == '\U{202F}'
    || c == '\U{205F}' || c == '\U{3000}'
  }

  /** By code point. */
  lemma SpaceCodes(c: char)
    ensures IsSpace(c) <==>
      var n := c as int;
      9 <= n <= 13 || n == 32 || n == 133 || n == 160 || n == 5760 || 8192 <= n <= 8202
      || n in {8232, 8233, 8239, 8287, 12288}
  {
  }

  predicate Blank(s: string) {
    forall c :: c in s ==> IsSpace(c)
  }

  /** A text format: `parse` gives None on a syntax error, `render` None when a
      tree cannot be written. */
  datatype Codec = Codec(parse: string -> Option<Tree>, render: Tree -> Option<string>)
  {
    /** What is assumed of the TOML and JSON libraries: rendered text parses back
        to the same tree up to array typing, only the empty tree renders blank,
        parsers build no TextList, and rendering does not look at array typing. */
    ghost predicate Faithful() {
      && (forall t :: render(t).Some? ==>
            parse(render(t).value) == Some(ReparsedTree(t)) && (t != map[] ==> !Blank(render(t).value)))
      && (forall s :: parse(s).Some? ==> ReparsedTree(parse(s).value) == parse(s).value)
      && (forall t :: render(ReparsedTree(t)) == render(t))
    }
  }

  /** The table stored under a key, if there is one. */
  function TableAt(t: Tree, key: string): Option<Tree> {
    if key in t && t[key].Table? then Some(t[key].entries) else None
  }

  function TableOrNew(t: Tree, key: string): Tree {
    match TableAt(t, key)
    case Some(entries) => entries
    case None => map[]
  }

  /** The value at a path that is not itself a table. */
  function LeafAt(t: Tree, path: seq<string>): Option<Value>
    decreases path
  {
    if path == [] || path[0] !in t then None
    else if t[path[0]].Table? then LeafAt(t[path[0]].entries, path[1..])
    else if |path| == 1 then Some(t[path[0]])
    else None
  }
}
