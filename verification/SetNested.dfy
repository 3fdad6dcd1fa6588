/** The copying deep update of the publish wizard's drafts, on a heap of JavaScript objects and arrays. */
module SetNestedModule {

  datatype Val = Undefined | Prim(text: string) | Ref(obj: JsObject)

  /** An object or array; an absent property reads as undefined. */
  class JsObject {
    const isArray: bool
    var props: map<string, Val>

    constructor (isArray: bool, props: map<string, Val>)
      ensures this.isArray == isArray && this.props == props
    {
      this.isArray, this.props := isArray, props;
    }
  }

  predicate ValIn(v: Val, heap: set<JsObject>) {
    v.Ref? ==> v.obj in heap
  }

  /** No reference leaves the set; cycles are allowed. */
  ghost predicate Closed(heap: set<JsObject>)
    reads heap
  {
    forall o, k :: o in heap && k in o.props ==> ValIn(o.props[k], heap)
  }

  /** What reading the path gives, by identity. */
  ghost function Read(v: Val, path: seq<string>, heap: set<JsObject>): (r: Val)
    requires Closed(heap) && ValIn(v, heap)
    reads heap
    ensures ValIn(r, heap)
    decreases |path|
  {
    if path == [] then v
    else if v.Ref? && path[0] in v.obj.props then Read(v.obj.props[path[0]], path[1..], heap)
    else Undefined
  }

  /** What an observer sees at a path: a value, or the kind of container. */
  datatype Seen = Nothing | Leaf(text: string) | Container(isArray: bool)

  function Shape(v: Val): Seen {
    match v
    case Undefined => Nothing
    case Prim(text) => Leaf(text)
    case Ref(o) => Container(o.isArray)
  }

  ghost function View(v: Val, path: seq<string>, heap: set<JsObject>): Seen
    requires Closed(heap) && ValIn(v, heap)
    reads heap
  {
    Shape(Read(v, path, heap))
  }

  /** The own properties that spreading a value copies. */
  function Own(v: Val): map<string, Val>
    reads if v.Ref? then {v.obj} else {}
  {
    if v.Ref? then v.obj.props else map[]
  }

  predicate IsArray(v: Val) {
    v.Ref? && v.obj.isArray
  }

  predicate Diverge(p: seq<string>, q: seq<string>) {
    !(p <= q) && !(q <= p)
  }

  /** path.split('.') */
  function Split(path: string): (keys: seq<string>)
    ensures |keys| >= 1
  {
    if path == "" then [""]
    else
      var rest := Split(path[1..]);
      if path[0] == '.' then [""] + rest else [[path[0]] + rest[0]] + rest[1..]
  }

  function Join(keys: seq<string>): string
    requires |keys| >= 1
  {
    if |keys| == 1 then keys[0] else keys[0] + "." + Join(keys[1..])
  }

  /** Splitting loses nothing and leaves no separator inside a key. */
  lemma {:induction false} SplitJoin(path: string)
    ensures Join(Split(path)) == path
    ensures forall i :: 0 <= i < |Split(path)| ==> '.' !in Split(path)[i]
  {
    if path != "" {
      SplitJoin(path[1..]);
      var rest, keys := Split(path[1..]), Split(path);
      if path[0] == '.' {
        assert keys[1..] == rest;
      } else {
        assert keys[1..] == rest[1..];
      }
    }
  }

  lemma {:induction false} ReadInLarger(v: Val, path: seq<string>, heap: set<JsObject>, larger: set<JsObject>)
    requires heap <= larger && Closed(heap) && Closed(larger) && ValIn(v, heap)
    ensures Read(v, path, larger) == Read(v, path, heap)
    decreases |path|
  {
    if path != [] && v.Ref? && path[0] in v.obj.props {
      ReadInLarger(v.obj.props[path[0]], path[1..], heap, larger);
    }
  }

  /** Reading one key further. */
  lemma {:induction false} ReadSnoc(v: Val, path: seq<string>, key: string, heap: set<JsObject>)
    requires Closed(heap) && ValIn(v, heap)
    ensures var node := Read(v, path, heap);
      Read(v, path + [key], heap) == if key in Own(node) then Own(node)[key] else Undefined
    decreases |path|
  {
    var longer := path + [key];
    if path == [] {
      assert longer[1..] == [];
    } else {
      assert longer[1..] == path[1..] + [key];
      if v.Ref? && path[0] in v.obj.props {
        ReadSnoc(v.obj.props[path[0]], path[1..], key, heap);
      }
    }
  }

  /** A copy of an old node (or of nothing) with one property replaced. */
  ghost predicate IsCopy(link: JsObject, node: Val, key: string, next: Val)
    reads link, if node.Ref? then {node.obj} else {}
  {
    link.isArray == IsArray(node) && link.props == Own(node)[key := next]
  }

  /** What link j of a chain points to: the next link, or the new value at the end. */
  function NextOf(chain: seq<JsObject>, j: nat, value: Val): Val {
    if j + 1 < |chain| then Ref(chain[j + 1]) else value
  }

  /** The path of copies made for keys: link j copies the old node at keys[..j]. */
  ghost predicate IsChain(chain: seq<JsObject>, root: Val, keys: seq<string>, value: Val, heap: set<JsObject>)
    requires Closed(heap) && ValIn(root, heap)
    reads heap, chain
  {
    && |chain| == |keys| >= 1
    && (forall j: nat {:trigger NextOf(chain, j, value)} :: j < |chain| ==>
         IsCopy(chain[j], Read(root, keys[..j], heap), keys[j], NextOf(chain, j, value)))
  }

  /** Reading through the copies: the new value below the path, the old values beside it. */
  lemma {:induction false} ReadChain(chain: seq<JsObject>, j: nat, q: seq<string>, root: Val, keys: seq<string>, value: Val,
                                     heap: set<JsObject>, larger: set<JsObject>)
    requires Closed(heap) && ValIn(root, heap) && ValIn(value, heap) && j < |keys|
    requires IsChain(chain, root, keys, value, heap)
    requires larger == heap + (set o | o in chain) && Closed(larger)
    ensures var rest := keys[j..];
      var node := Read(root, keys[..j], heap);
      Read(Ref(chain[j]), q, larger) ==
        if rest <= q then Read(value, q[|rest|..], heap)
        else if q <= rest then Ref(chain[j + |q|])
        else Read(node, q, heap)
    decreases |q|
  {
    var rest, node := keys[j..], Read(root, keys[..j], heap);
    assert IsCopy(chain[j], node, keys[j], NextOf(chain, j, value));
    if q != [] {
      if q[0] != keys[j] {
        assert !(rest <= q) && !(q <= rest) by { assert rest[0] == keys[j]; }
        BesideKey(chain[j], node, keys[j], NextOf(chain, j, value), q, heap, larger);
      } else if j + 1 < |keys| {
        ReadSnoc(root, keys[..j], keys[j], heap);
        assert keys[..j + 1] == keys[..j] + [keys[j]];
        assert keys[j + 1..] == rest[1..];
        ReadChain(chain, j + 1, q[1..], root, keys, value, heap, larger);
        assert rest <= q <==> rest[1..] <= q[1..] by { ConsPrefix(rest, q); }
        assert q <= rest <==> q[1..] <= rest[1..] by { ConsPrefix(q, rest); }
        assert rest <= q ==> q[|rest|..] == q[1..][|rest| - 1..];
      } else {
        assert rest == [q[0]];
        assert rest <= q && q[|rest|..] == q[1..];
        ReadInLarger(value, q[1..], heap, larger);
      }
    }
  }

  /** A copy that differs from the old node in one property reads like it beside that property. */
  lemma BesideKey(copy: JsObject, node: Val, key: string, v: Val, q: seq<string>, heap: set<JsObject>, larger: set<JsObject>)
    requires heap <= larger && Closed(heap) && Closed(larger) && ValIn(node, heap) && copy in larger
    requires copy.props == Own(node)[key := v]
    requires q != [] && q[0] != key
    ensures Read(Ref(copy), q, larger) == Read(node, q, heap)
  {
    if q[0] in Own(node) {
      assert copy.props[q[0]] == Own(node)[q[0]];
      ReadInLarger(Own(node)[q[0]], q[1..], heap, larger);
    }
  }

  lemma ConsPrefix(p: seq<string>, q: seq<string>)
    requires p != [] && q != [] && p[0] == q[0]
    ensures p <= q <==> p[1..] <= q[1..]
  {
    assert p == [p[0]] + p[1..] && q == [q[0]] + q[1..];
  }

  /** One turn of the loop: replace the child by a copy of it (an empty object when there is none), and go there. */
  method CopyChild(curr: JsObject, key: string) returns (copy: JsObject)
    modifies curr
    ensures var child := if key in old(curr.props) then old(curr.props)[key] else Undefined;
      fresh(copy) && copy.isArray == IsArray(child) && copy.props == old(Own(child))
    ensures curr.props == old(curr.props)[key := Ref(copy)]
  {
    var child := if key in curr.props then curr.props[key] else Undefined;
    copy := new JsObject(IsArray(child), Own(child));
    curr.props := curr.props[key := Ref(copy)];
  }

  /** The loop of setNested: copies of the nodes at every proper prefix of the path, each pointing to the next. */
  method CopyPath(obj: JsObject, keys: seq<string>, ghost value: Val, ghost heap: set<JsObject>)
    returns (result: JsObject, curr: JsObject, ghost chain: seq<JsObject>)
    requires Closed(heap) && obj in heap && |keys| >= 1
    ensures |chain| == |keys| && chain[0] == result && chain[|keys| - 1] == curr && curr !in chain[..|keys| - 1] && fresh(curr)
    ensures forall o :: o in chain ==> fresh(o) && o !in heap
    ensures forall j: nat {:trigger NextOf(chain, j, value)} :: j < |keys| - 1 ==>
      IsCopy(chain[j], Read(Ref(obj), keys[..j], heap), keys[j], NextOf(chain, j, value))
    ensures var node := Read(Ref(obj), keys[..|keys| - 1], heap);
      curr.isArray == IsArray(node) && curr.props == Own(node)
  {
    result := new JsObject(obj.isArray, obj.props);
    curr := result;
    chain := [result];
    var i := 0;
    while i < |keys| - 1
      invariant 0 <= i <= |keys| - 1
      invariant |chain| == i + 1 && chain[0] == result && chain[i] == curr && curr !in chain[..i] && fresh(curr)
      invariant forall o :: o in chain ==> fresh(o) && o !in heap
      invariant forall j: nat {:trigger NextOf(chain, j, value)} :: j < i ==>
        IsCopy(chain[j], Read(Ref(obj), keys[..j], heap), keys[j], NextOf(chain, j, value))
      invariant curr.isArray == IsArray(Read(Ref(obj), keys[..i], heap))
      invariant curr.props == Own(Read(Ref(obj), keys[..i], heap))
    {
      var key := keys[i];
      ReadSnoc(Ref(obj), keys[..i], key, heap);
      assert keys[..i + 1] == keys[..i] + [key];
      ghost var node, links, from := Read(Ref(obj), keys[..i], heap), chain, curr;
      assert from !in heap;
      curr := CopyChild(curr, key);
      chain := chain + [curr];
      assert IsCopy(chain[i], node, key, NextOf(chain, i, value));
      assert forall j: nat {:trigger NextOf(chain, j, value)} :: j < i ==> NextOf(chain, j, value) == NextOf(links, j, value);
      i := i + 1;
    }
  }

  /** What a set of `keys` to `value` gives: the value below the path, the old contents on every diverging path,
      and new containers of the old kinds at its proper prefixes. */
  ghost predicate IsSet(result: JsObject, obj: JsObject, keys: seq<string>, value: Val,
                        heap: set<JsObject>, larger: set<JsObject>)
    reads heap, larger
  {
    && heap <= larger && Closed(heap) && Closed(larger)
    && obj in heap && ValIn(value, heap) && result in larger
    && (forall q :: keys <= q ==> Read(Ref(result), q, larger) == Read(value, q[|keys|..], heap))
    && (forall q :: Diverge(keys, q) ==> Read(Ref(result), q, larger) == Read(Ref(obj), q, heap))
    && (forall q :: q <= keys && q != keys ==>
         var copy := Read(Ref(result), q, larger);
         copy.Ref? && copy.obj !in heap && IsArray(copy) == IsArray(Read(Ref(obj), q, heap)))
  }

  /** setNested. There is no modifies clause: no object that existed before changes. */
  method SetNested(obj: JsObject, keys: seq<string>, value: Val, ghost heap: set<JsObject>)
    returns (result: JsObject, ghost larger: set<JsObject>)
    requires Closed(heap) && obj in heap && ValIn(value, heap) && |keys| >= 1
    ensures IsSet(result, obj, keys, value, heap, larger)
    ensures fresh(larger - heap) && fresh(result)
  {
    var curr;
    ghost var chain;
    result, curr, chain := CopyPath(obj, keys, value, heap);
    ghost var last := |keys| - 1;
    curr.props := curr.props[keys[|keys| - 1] := value];
    larger := heap + (set o | o in chain);
    assert IsCopy(chain[last], Read(Ref(obj), keys[..last], heap), keys[last], NextOf(chain, last, value));
    assert IsChain(chain, Ref(obj), keys, value, heap);
    ChainSpec(chain, obj, keys, value, heap, larger);
  }

  lemma ChainSpec(chain: seq<JsObject>, obj: JsObject, keys: seq<string>, value: Val,
                  heap: set<JsObject>, larger: set<JsObject>)
    requires Closed(heap) && obj in heap && ValIn(value, heap)
    requires IsChain(chain, Ref(obj), keys, value, heap)
    requires forall j :: 0 <= j < |chain| ==> chain[j] !in heap
    requires larger == heap + (set o | o in chain)
    ensures IsSet(chain[0], obj, keys, value, heap, larger)
  {
    ChainClosed(chain, Ref(obj), keys, value, heap, larger);
    assert keys[..0] == [] && keys[0..] == keys;
    forall q | keys <= q ensures Read(Ref(chain[0]), q, larger) == Read(value, q[|keys|..], heap) {
      ReadChain(chain, 0, q, Ref(obj), keys, value, heap, larger);
    }
    forall q | Diverge(keys, q) ensures Read(Ref(chain[0]), q, larger) == Read(Ref(obj), q, heap) {
      ReadChain(chain, 0, q, Ref(obj), keys, value, heap, larger);
    }
    forall q | q <= keys && q != keys
      ensures var copy := Read(Ref(chain[0]), q, larger);
        copy.Ref? && copy.obj !in heap && IsArray(copy) == IsArray(Read(Ref(obj), q, heap))
    {
      ReadChain(chain, 0, q, Ref(obj), keys, value, heap, larger);
      assert q == keys[..|q|] && !(keys <= q);
      assert IsCopy(chain[|q|], Read(Ref(obj), q, heap), keys[|q|], NextOf(chain, |q|, value));
    }
  }

  lemma ChainClosed(chain: seq<JsObject>, root: Val, keys: seq<string>, value: Val,
                    heap: set<JsObject>, larger: set<JsObject>)
    requires Closed(heap) && ValIn(root, heap) && ValIn(value, heap)
    requires IsChain(chain, root, keys, value, heap)
    requires larger == heap + (set o | o in chain)
    ensures Closed(larger)
  {
    forall o, k | o in larger && k in o.props ensures ValIn(o.props[k], larger) {
      if o !in heap {
        var j :| 0 <= j < |chain| && chain[j] == o;
        var node := Read(root, keys[..j], heap);
        assert IsCopy(o, node, keys[j], NextOf(chain, j, value));
        if k != keys[j] {
          assert ValIn(Own(node)[k], heap);
        }
      }
    }
  }

  /** The second of two sets on one path wins: the observer cannot tell that the first happened. */
  lemma SecondWins(twice: JsObject, middle: JsObject, once: JsObject, obj: JsObject, keys: seq<string>,
                   first: Val, second: Val, heap: set<JsObject>, h1: set<JsObject>, h2: set<JsObject>, h3: set<JsObject>,
                   q: seq<string>)
    requires IsSet(middle, obj, keys, first, heap, h1) && IsSet(twice, middle, keys, second, h1, h2)
    requires IsSet(once, obj, keys, second, h2, h3) && ValIn(second, heap)
    ensures View(Ref(twice), q, h3) == View(Ref(once), q, h3)
  {
    ReadInLarger(Ref(twice), q, h2, h3);
    if keys <= q {
      ReadInLarger(second, q[|keys|..], heap, h1);
      ReadInLarger(second, q[|keys|..], heap, h2);
    } else {
      ReadInLarger(Ref(obj), q, heap, h2);
    }
  }

  method SecondSetWins(obj: JsObject, keys: seq<string>, first: Val, second: Val, ghost heap: set<JsObject>)
    returns (twice: JsObject, once: JsObject, ghost larger: set<JsObject>)
    requires Closed(heap) && obj in heap && ValIn(first, heap) && ValIn(second, heap) && |keys| >= 1
    ensures heap <= larger && Closed(larger) && twice in larger && once in larger
    ensures forall q :: View(Ref(twice), q, larger) == View(Ref(once), q, larger)
  {
    ghost var h1, h2;
    var middle;
    middle, h1 := SetNested(obj, keys, first, heap);
    twice, h2 := SetNested(middle, keys, second, h1);
    once, larger := SetNested(obj, keys, second, h2);
    forall q ensures View(Ref(twice), q, larger) == View(Ref(once), q, larger) {
      SecondWins(twice, middle, once, obj, keys, first, second, heap, h1, h2, larger, q);
    }
  }

  /** Sets on diverging paths commute, whatever is read. */
  lemma SetsCommute(first: JsObject, pq: JsObject, other: JsObject, qp: JsObject, obj: JsObject,
                    p: seq<string>, x: Val, q: seq<string>, y: Val, heap: set<JsObject>, h1: set<JsObject>,
                    h2: set<JsObject>, h3: set<JsObject>, h4: set<JsObject>, r: seq<string>)
    requires Diverge(p, q) && ValIn(x, heap) && ValIn(y, heap)
    requires IsSet(first, obj, p, x, heap, h1) && IsSet(pq, first, q, y, h1, h2)
    requires IsSet(other, obj, q, y, h2, h3) && IsSet(qp, other, p, x, h3, h4)
    ensures View(Ref(pq), r, h4) == View(Ref(qp), r, h4)
  {
    ReadInLarger(Ref(pq), r, h2, h4);
    if p <= r {
      ReadInLarger(x, r[|p|..], heap, h3);
    } else if q <= r {
      ReadInLarger(y, r[|q|..], heap, h1);
      ReadInLarger(y, r[|q|..], heap, h2);
    } else {
      ReadInLarger(Ref(obj), r, heap, h2);
    }
  }

  method DivergingSetsCommute(obj: JsObject, p: seq<string>, x: Val, q: seq<string>, y: Val, ghost heap: set<JsObject>)
    returns (pq: JsObject, qp: JsObject, ghost larger: set<JsObject>)
    requires Closed(heap) && obj in heap && ValIn(x, heap) && ValIn(y, heap) && Diverge(p, q)
    ensures heap <= larger && Closed(larger) && pq in larger && qp in larger
    ensures forall r :: View(Ref(pq), r, larger) == View(Ref(qp), r, larger)
  {
    ghost var h1, h2, h3;
    var first, other;
    first, h1 := SetNested(obj, p, x, heap);
    pq, h2 := SetNested(first, q, y, h1);
    other, h3 := SetNested(obj, q, y, h2);
    qp, larger := SetNested(other, p, x, h3);
    forall r ensures View(Ref(pq), r, larger) == View(Ref(qp), r, larger) {
      SetsCommute(first, pq, other, qp, obj, p, x, q, y, heap, h1, h2, h3, larger, r);
    }
  }
}
