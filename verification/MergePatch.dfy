/** JSON merge patches, as section 2 of RFC 7396 applies them and as the client derives
    them from the object a writer read and the object it wants: what a patch built from
    an old read does to whatever is there when it arrives. */
module MergePatch {
  import opened Api

  datatype Value = Text(text: string) | Number(number: int) | Flag(flag: bool)

  datatype Json = Null | Leaf(value: Value) | Arr(elements: seq<Json>) | Obj(members: map<string, Json>)

  type Path = seq<string>

  function Member(j: Option<Json>, key: string): Option<Json> {
    if j.Some? && j.value.Obj? && key in j.value.members then Some(j.value.members[key]) else None
  }

  function At(j: Option<Json>, path: Path): Option<Json>
    decreases |path|
  {
    if path == [] then j else At(Member(j, path[0]), path[1..])
  }

  function MembersOf(j: Option<Json>): map<string, Json> {
    if j.Some? && j.value.Obj? then j.value.members else map[]
  }

  /** The document after patching the target, where no target is None. */
  function Apply(target: Option<Json>, patch: Json): Json
    decreases patch
  {
    if !patch.Obj? then patch
    else
      var t, p := MembersOf(target), patch.members;
      Obj(map k | k in t.Keys + p.Keys && (k in p ==> p[k] != Null) ::
            if k in p then Apply(if k in t then Some(t[k]) else None, p[k]) else t[k])
  }

  /** The patch from one object to another: a removed member is null, members that are
      objects on both sides are compared in turn, and equal members are left out. */
  function Diff(a: Json, b: Json): Json
    requires a.Obj? && b.Obj?
    decreases b
  {
    Obj(map k | k in a.members.Keys + b.members.Keys && Member(Some(a), k) != Member(Some(b), k) ::
          if k !in b.members then Null
          else if k in a.members && a.members[k].Obj? && b.members[k].Obj? then Diff(a.members[k], b.members[k])
          else b.members[k])
  }

  lemma DiffMember(a: Json, b: Json, k: string)
    requires a.Obj? && b.Obj?
    ensures var x, y := Member(Some(a), k), Member(Some(b), k);
      Member(Some(Diff(a, b)), k)
        == if x == y then None
           else if y.None? then Some(Null)
           else if x.Some? && x.value.Obj? && y.value.Obj? then Some(Diff(x.value, y.value))
           else y
  {
  }

  predicate NullFree(j: Json)
  {
    !j.Null? && (j.Obj? ==> forall k :: k in j.members ==> NullFree(j.members[k]))
  }

  // ------------------------------------------------------------------ round trip

  /** Patching the object the writer read yields the object it wanted, as long as that
      object has no null member, which a merge patch cannot express. */
  lemma {:induction false} RoundTrip(a: Json, b: Json)
    requires a.Obj? && b.Obj? && NullFree(b)
    ensures Apply(Some(a), Diff(a, b)) == b
    decreases b
  {
    var d := Diff(a, b);
    var r := Apply(Some(a), d);
    forall k ensures Member(Some(r), k) == Member(Some(b), k) {
      if k in d.members && k in b.members {
        if k in a.members && a.members[k].Obj? && b.members[k].Obj? {
          RoundTrip(a.members[k], b.members[k]);
        } else {
          CreatedAsGiven(Member(Some(a), k), b.members[k]);
        }
      }
    }
    SameMembers(r, b);
  }

  lemma SameMembers(a: Json, b: Json)
    requires a.Obj? && b.Obj? && forall k :: Member(Some(a), k) == Member(Some(b), k)
    ensures a == b
  {
    forall k ensures k in a.members <==> k in b.members {
      assert Member(Some(a), k) == Member(Some(b), k);
    }
    forall k | k in a.members ensures a.members[k] == b.members[k] {
      assert Member(Some(a), k) == Member(Some(b), k);
    }
    assert a.members == b.members;
  }

  /** A null-free document patched over nothing, or over no object, is itself. */
  lemma {:induction false} CreatedAsGiven(target: Option<Json>, b: Json)
    requires NullFree(b) && (b.Obj? ==> MembersOf(target) == map[])
    ensures Apply(target, b) == b
    decreases b
  {
    if b.Obj? {
      var r := Apply(target, b);
      forall k ensures Member(Some(r), k) == Member(Some(b), k) {
        if k in b.members {
          CreatedAsGiven(Member(target, k), b.members[k]);
        }
      }
      SameMembers(r, b);
    }
  }

  /** The patch is empty exactly when there is nothing to change. */
  lemma NothingToSend(a: Json, b: Json)
    requires a.Obj? && b.Obj?
    ensures Diff(a, b) == Obj(map[]) <==> a == b
  {
    if Diff(a, b) == Obj(map[]) {
      forall k ensures Member(Some(a), k) == Member(Some(b), k) {
        if Member(Some(a), k) != Member(Some(b), k) {
          assert k in Diff(a, b).members;
        }
      }
      SameMembers(a, b);
    }
  }

  // -------------------------------------------------------------------- locality

  /** Base and result agree at the path, and nothing above it was replaced wholesale. */
  predicate Untouched(a: Option<Json>, b: Option<Json>, path: Path)
    decreases |path|
  {
    a == b || (path != [] && b.Some? && b.value.Obj? && Untouched(Member(a, path[0]), Member(b, path[0]), path[1..]))
  }

  /** A patch leaves every untouched path of every target as it finds it. */
  lemma {:induction false} PatchIsLocal(a: Json, b: Json, t: Json, path: Path)
    requires a.Obj? && b.Obj? && t.Obj? && path != [] && Untouched(Some(a), Some(b), path)
    ensures At(Some(Apply(Some(t), Diff(a, b))), path) == At(Some(t), path)
    decreases |path|, 0
  {
    var k, rest := path[0], path[1..];
    var d := Diff(a, b);
    if k in d.members {
      var x, y := Member(Some(a), k), Member(Some(b), k);
      assert rest != [] && y.Some? && y.value.Obj?;
      if x.Some? && x.value.Obj? {
        PatchIsLocalIn(x.value, y.value, Member(Some(t), k), rest);
      } else {
        NewMembersAreLocal(x, y.value, Member(Some(t), k), rest);
      }
    }
  }

  lemma {:induction false} PatchIsLocalIn(a: Json, b: Json, t: Option<Json>, path: Path)
    requires a.Obj? && b.Obj? && path != [] && Untouched(Some(a), Some(b), path)
    ensures At(Some(Apply(t, Diff(a, b))), path) == At(t, path)
    decreases |path|, 1
  {
    var o := Obj(MembersOf(t));
    PatchIsLocal(a, b, o, path);
    forall k ensures Member(t, k) == Member(Some(o), k) {
    }
    SameTarget(t, o, Diff(a, b));
  }

  /** What is no object is patched as if it were the empty one. */
  lemma SameTarget(t: Option<Json>, o: Json, patch: Json)
    requires o.Obj? && patch.Obj? && MembersOf(t) == o.members
    ensures Apply(t, patch) == Apply(Some(o), patch)
  {
  }

  /** An object that appears, or takes the place of something else, carries nothing at
      an untouched path. */
  lemma {:induction false} NewMembersAreLocal(a: Option<Json>, b: Json, t: Option<Json>, path: Path)
    requires b.Obj? && !(a.Some? && a.value.Obj?) && path != []
    requires Untouched(a, Some(b), path)
    ensures At(Some(Apply(t, b)), path) == At(t, path)
    decreases |path|
  {
    var k, rest := path[0], path[1..];
    assert Member(a, k) == None;
    if k in b.members {
      NewMembersAreLocal(None, b.members[k], Member(t, k), rest);
    }
  }

  /** A document with nothing but an object or a leaf down the path. */
  function Nest(path: Path): Json
    decreases |path|
  {
    if path == [] then Leaf(Text("")) else Obj(map[path[0] := Nest(path[1..])])
  }

  /** And only those: at any other path some target is changed. Two paths of one object
      are therefore written by a patch exactly when they are touched. */
  lemma PatchTouchesTheRest(a: Json, b: Json, path: Path)
    requires a.Obj? && b.Obj? && NullFree(b) && path != [] && !Untouched(Some(a), Some(b), path)
    ensures exists t: Json :: t.Obj? && At(Some(Apply(Some(t), Diff(a, b))), path) != At(Some(t), path)
  {
    if At(Some(a), path) != At(Some(b), path) {
      RoundTrip(a, b);
    } else {
      ReplacedWholesale(a, b, path);
      var t := Nest(path);
      NestAt(path);
      assert At(Some(Apply(Some(t), Diff(a, b))), path) != At(Some(t), path);
    }
  }

  lemma {:induction false} NestAt(path: Path)
    ensures At(Some(Nest(path)), path) == Some(Leaf(Text("")))
  {
    if path != [] {
      NestAt(path[1..]);
    }
  }

  /** Where an object above the path went, whatever hung below it went too. */
  lemma {:induction false} ReplacedWholesale(a: Json, b: Json, path: Path)
    requires a.Obj? && b.Obj? && path != [] && !Untouched(Some(a), Some(b), path)
    requires At(Some(a), path) == At(Some(b), path)
    ensures At(Some(Apply(Some(Nest(path)), Diff(a, b))), path) != Some(Leaf(Text("")))
    decreases |path|
  {
    var k, rest := path[0], path[1..];
    var x, y := Member(Some(a), k), Member(Some(b), k);
    assert x != y && rest != [];
    if y.Some? && y.value.Obj? {
      if x.Some? && x.value.Obj? {
        ReplacedWholesale(x.value, y.value, rest);
      } else {
        AtNothing(x, rest);
        ReplacedByNew(x, y.value, rest);
      }
    } else if y.Some? {
      AtNothing(y, rest);
    } else {
      AtNothing(None, rest);
    }
  }

  lemma {:induction false} ReplacedByNew(a: Option<Json>, b: Json, path: Path)
    requires b.Obj? && !(a.Some? && a.value.Obj?) && path != []
    requires !Untouched(a, Some(b), path) && At(Some(b), path) == None
    ensures At(Some(Apply(Some(Nest(path)), b)), path) == None
    decreases |path|
  {
    var k, rest := path[0], path[1..];
    assert Member(a, k) == None;
    var y := Member(Some(b), k);
    assert y.Some? && rest != [];
    if y.value.Obj? {
      ReplacedByNew(None, y.value, rest);
    } else {
      AtNothing(y, rest);
      AtNothing(None, rest);
    }
  }

  lemma AtNothing(j: Option<Json>, path: Path)
    requires path != [] && !(j.Some? && j.value.Obj?)
    ensures At(j, path) == None
  {
    NothingBelow(path[1..]);
  }

  lemma {:induction false} NothingBelow(path: Path)
    ensures At(None, path) == None
  {
    if path != [] {
      NothingBelow(path[1..]);
    }
  }

  // ----------------------------------------------------------------- commutation

  /** Two patches meet only in objects they both descend into. */
  predicate Disjoint(p: Json, q: Json)
    decreases p
  {
    && p.Obj? && q.Obj?
    && forall k :: k in p.members && k in q.members ==> Disjoint(p.members[k], q.members[k])
  }

  lemma MemberAfter(t: Option<Json>, p: Json, k: string)
    requires p.Obj?
    ensures Member(Some(Apply(t, p)), k)
         == if k !in p.members then Member(t, k)
            else if p.members[k].Null? then None
            else Some(Apply(Member(t, k), p.members[k]))
  {
  }

  /** Disjoint patches give the same document in either order, whatever they land on. */
  lemma {:induction false} DisjointPatchesCommute(t: Option<Json>, p: Json, q: Json)
    requires Disjoint(p, q)
    ensures Apply(Some(Apply(t, p)), q) == Apply(Some(Apply(t, q)), p)
    decreases p
  {
    var pq, qp := Apply(Some(Apply(t, p)), q), Apply(Some(Apply(t, q)), p);
    forall k ensures Member(Some(pq), k) == Member(Some(qp), k) {
      MemberAfter(t, p, k);
      MemberAfter(t, q, k);
      MemberAfter(Some(Apply(t, p)), q, k);
      MemberAfter(Some(Apply(t, q)), p, k);
      if k in p.members && k in q.members {
        DisjointPatchesCommute(Member(t, k), p.members[k], q.members[k]);
      }
    }
    SameMembers(pq, qp);
  }
}
