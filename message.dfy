/** HTTP message heads as the proxy sees them: a request or response head and
    its header store. The store is an ordered collection of headers, each a
    name with a list of values. Finding a header goes through a key function
    supplied by the owner of the store, so that whether names are compared
    with or without case is left open. */
module Message {

  /** One header: the name it was first added under and its values in order. */
  datatype Header = Header(name: string, values: seq<string>)

  /** A response status is either a number or text taken verbatim from a peer. */
  datatype Status = Code(code: int) | Text(text: string)

  datatype Request = Request(verb: string, url: string, version: string, headers: seq<Header>)

  datatype Response = Response(version: string, status: Status, headers: seq<Header>)

  /** The position of the header whose name has the same key as name, or the
      length of the store when there is none. */
  function Find(hs: seq<Header>, key: string -> string, name: string): (i: nat)
    ensures i <= |hs|
    ensures i < |hs| ==> key(hs[i].name) == key(name)
    ensures forall j :: 0 <= j < i ==> key(hs[j].name) != key(name)
  {
    if hs == [] then 0
    else if key(hs[0].name) == key(name) then 0
    else 1 + Find(hs[1..], key, name)
  }

  /** The values recorded under name, or none when no header has its key. */
  function ValuesOf(hs: seq<Header>, key: string -> string, name: string): seq<string> {
    var i := Find(hs, key, name);
    if i < |hs| then hs[i].values else []
  }

  /** No two headers share a key. */
  predicate UniqueKeys(hs: seq<Header>, key: string -> string) {
    forall i, j :: 0 <= i < j < |hs| ==> key(hs[i].name) != key(hs[j].name)
  }

  /** message.header(name).values.append(v): the header with name's key gets v
      after its values, or, when there is none, a new header named name with
      the single value v is added at the end. Headers already present keep
      their positions and names. */
  function AddValue(hs: seq<Header>, key: string -> string, name: string, v: string): (r: seq<Header>)
    ensures |r| == |hs| || |r| == |hs| + 1
    ensures forall i :: 0 <= i < |hs| ==> r[i].name == hs[i].name
    ensures |r| == |hs| + 1 <==> Find(hs, key, name) == |hs|
    ensures |r| == |hs| + 1 ==> r[|hs|] == Header(name, [v])
  {
    var i := Find(hs, key, name);
    if i < |hs| then hs[i := Header(hs[i].name, hs[i].values + [v])]
    else hs + [Header(name, [v])]
  }

  /** Adding a value puts it after the values already recorded under that key. */
  lemma AddValueAppends(hs: seq<Header>, key: string -> string, name: string, v: string)
    ensures ValuesOf(AddValue(hs, key, name, v), key, name) == ValuesOf(hs, key, name) + [v]
  {
    var r := AddValue(hs, key, name, v);
    FindPrefix(hs, r, key, name);
  }

  /** Adding a value under one key leaves the values under every other key as
      they were. */
  lemma AddValueOthers(hs: seq<Header>, key: string -> string, name: string, v: string, other: string)
    requires key(other) != key(name)
    ensures ValuesOf(AddValue(hs, key, name, v), key, other) == ValuesOf(hs, key, other)
  {
    var r := AddValue(hs, key, name, v);
    FindPrefix(hs, r, key, other);
    var j := Find(hs, key, other);
    if j == |hs| && |r| == |hs| + 1 {
      assert key(r[|hs|].name) != key(other);
    }
  }

  /** Adding a value never introduces a second header with the same key. */
  lemma AddValueKeepsUnique(hs: seq<Header>, key: string -> string, name: string, v: string)
    requires UniqueKeys(hs, key)
    ensures UniqueKeys(AddValue(hs, key, name, v), key)
  {
    var r := AddValue(hs, key, name, v);
    if |r| == |hs| + 1 {
      forall i, j | 0 <= i < j < |r|
        ensures key(r[i].name) != key(r[j].name)
      {
        if j == |hs| {
          assert key(hs[i].name) != key(name);
        }
      }
    }
  }

  /** Lookup only looks at names: a store whose first headers have the same
      names as hs finds what hs finds, and finds nothing earlier when hs finds
      nothing. */
  lemma {:induction false} FindPrefix(hs: seq<Header>, r: seq<Header>, key: string -> string, name: string)
    requires |hs| <= |r|
    requires forall i :: 0 <= i < |hs| ==> r[i].name == hs[i].name
    ensures Find(hs, key, name) < |hs| ==> Find(r, key, name) == Find(hs, key, name)
    ensures Find(hs, key, name) == |hs| ==> Find(r, key, name) >= |hs|
  {
    if hs != [] && key(hs[0].name) != key(name) {
      FindPrefix(hs[1..], r[1..], key, name);
    }
  }
}
