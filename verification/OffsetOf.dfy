/** Member resolution (crash/util/__init__.py): `__offsetof`, `offsetof` and
    `container_of` over aggregate types with unnamed members. */
module OffsetOf {
  import opened Collections

  /** A struct or union, or anything else: only aggregates have members. */
  datatype Type = Scalar | Aggregate(fields: seq<Field>)

  /** `name` is None for an unnamed member. */
  datatype Field = Field(name: Option<string>, bitpos: nat, typ: Type)

  /** Where a member lies, or why it cannot be told: there is none of that name, or
      something that is not a struct or union was asked for its members. */
  datatype Lookup = Found(offset: nat, typ: Type) | NoSuchMember | NotAggregate

  function Moved(base: nat, l: Lookup): Lookup {
    if l.Found? then Found(base + l.offset, l.typ) else l
  }

  // ----- Resolution as the source does it -----

  /** One component of a path, looked up in a type. */
  function Member(t: Type, name: string): Lookup
    decreases t, 2
  {
    if t.Scalar? then NotAggregate else InFields(t.fields, name)
  }

  function InFields(fields: seq<Field>, name: string): Lookup
    decreases fields, 0
  {
    if fields == [] then NoSuchMember
    else
      var here := InField(fields[0], name);
      if here.NoSuchMember? then InFields(fields[1..], name) else here
  }

  /** A member of that name, or one inside an unnamed member. */
  function InField(f: Field, name: string): Lookup
    decreases f, 1
  {
    var off := f.bitpos / 8;
    if f.name == Some(name) then Found(off, f.typ)
    else if f.name.None? then Moved(off, Member(f.typ, name))
    else NoSuchMember
  }

  /** A dotted path, given as its components. */
  function Resolve(t: Type, path: seq<string>): Lookup
    decreases |path|
  {
    if path == [] then Found(0, t)
    else
      var first := Member(t, path[0]);
      if first.Found? then Moved(first.offset, Resolve(first.typ, path[1..])) else first
  }

  /** `__offsetof` itself: a loop over the components. */
  method OffsetOfPath(t: Type, path: seq<string>) returns (r: Lookup)
    ensures r == Resolve(t, path)
    ensures exists types, offs :: Leads(t, path, types, offs, r)
  {
    ghost var types, offs := PathLeads(t, path);
    var typ, offset: nat := t, 0;
    var i := 0;
    while i < |path|
      invariant 0 <= i <= |path|
      invariant Resolve(t, path) == Moved(offset, Resolve(typ, path[i..]))
    {
      assert path[i..][0] == path[i] && path[i..][1..] == path[i + 1..];
      var found := FindMember(typ, path[i]);
      if !found.Found? {
        return found;
      }
      typ := found.typ;
      offset := offset + found.offset;
      i := i + 1;
    }
    assert path[i..] == [];
    return Found(offset, typ);
  }

  /** The scan over the members of one type. */
  method FindMember(t: Type, name: string) returns (r: Lookup)
    ensures r == Member(t, name)
    decreases t, 1
  {
    if t.Scalar? {
      return NotAggregate;
    }
    var i := 0;
    while i < |t.fields|
      invariant 0 <= i <= |t.fields|
      invariant Member(t, name) == InFields(t.fields[i..], name)
    {
      assert t.fields[i..][0] == t.fields[i] && t.fields[i..][1..] == t.fields[i + 1..];
      r := FindInField(t.fields[i], name);
      if !r.NoSuchMember? {
        return;
      }
      i := i + 1;
    }
    assert t.fields[i..] == [];
    return NoSuchMember;
  }

  method FindInField(f: Field, name: string) returns (r: Lookup)
    ensures r == InField(f, name)
    decreases f, 0
  {
    var off := f.bitpos / 8;
    if f.name == Some(name) {
      return Found(off, f.typ);
    }
    if f.name.None? {
      r := FindMember(f.typ, name);
      return Moved(off, r);
    }
    return NoSuchMember;
  }

  // ----- The flattened view -----

  /** A member as seen from the outermost type; `name` is None for an unnamed one
      that is no aggregate, at which every search stops. */
  datatype Flat = Flat(name: Option<string>, offset: nat, typ: Type)

  /** All members, unnamed aggregates replaced by their own, depth first. */
  ghost function Flatten(t: Type, base: nat): seq<Flat>
    decreases t, 2
  {
    if t.Scalar? then [Flat(None, base, t)] else FlattenFields(t.fields, base)
  }

  ghost function FlattenFields(fields: seq<Field>, base: nat): seq<Flat>
    decreases fields, 0
  {
    if fields == [] then [] else FlattenField(fields[0], base) + FlattenFields(fields[1..], base)
  }

  ghost function FlattenField(f: Field, base: nat): seq<Flat>
    decreases f, 1
  {
    var off := base + f.bitpos / 8;
    if f.name.Some? then [Flat(f.name, off, f.typ)] else Flatten(f.typ, off)
  }

  /** The first entry that has the name, or that stops the search. */
  ghost function FirstMatch(flat: seq<Flat>, name: string): Lookup {
    if flat == [] then NoSuchMember
    else if flat[0].name == Some(name) then Found(flat[0].offset, flat[0].typ)
    else if flat[0].name.None? then NotAggregate
    else FirstMatch(flat[1..], name)
  }

  lemma {:induction false} FirstMatchConcat(xs: seq<Flat>, ys: seq<Flat>, name: string)
    ensures FirstMatch(xs + ys, name) ==
              if FirstMatch(xs, name).NoSuchMember? then FirstMatch(ys, name) else FirstMatch(xs, name)
    decreases |xs|
  {
    if xs == [] {
      assert xs + ys == ys;
    } else {
      FirstMatchConcat(xs[1..], ys, name);
      assert (xs + ys)[1..] == xs[1..] + ys;
    }
  }

  /** Resolving one component is looking for the first match in the flattened list,
      for every type. */
  lemma {:induction false} MemberIsFirstMatch(t: Type, base: nat, name: string)
    ensures Moved(base, Member(t, name)) == FirstMatch(Flatten(t, base), name)
    decreases t, 2
  {
    if t.Aggregate? {
      FieldsAreFlat(t.fields, base, name);
    }
  }

  lemma {:induction false} FieldsAreFlat(fields: seq<Field>, base: nat, name: string)
    ensures Moved(base, InFields(fields, name)) == FirstMatch(FlattenFields(fields, base), name)
    decreases fields, 0
  {
    if fields != [] {
      FieldIsFlat(fields[0], base, name);
      FieldsAreFlat(fields[1..], base, name);
      FirstMatchConcat(FlattenField(fields[0], base), FlattenFields(fields[1..], base), name);
    }
  }

  lemma {:induction false} FieldIsFlat(f: Field, base: nat, name: string)
    ensures Moved(base, InField(f, name)) == FirstMatch(FlattenField(f, base), name)
    decreases f, 1
  {
    var off := f.bitpos / 8;
    if f.name.Some? {
      assert FlattenField(f, base)[1..] == [];
    } else {
      MemberIsFirstMatch(f.typ, base + off, name);
      MovedTwice(base, off, Member(f.typ, name));
    }
  }

  /** Every unnamed member is a struct or union, at every depth. */
  ghost predicate Proper(flat: seq<Flat>) {
    forall i :: 0 <= i < |flat| ==> flat[i].name.Some?
  }

  /** On proper types the search fails only if no flattened member has the name. */
  lemma {:induction false} FoundIfListed(flat: seq<Flat>, name: string)
    requires Proper(flat)
    ensures FirstMatch(flat, name).Found? <==> exists i :: 0 <= i < |flat| && flat[i].name == Some(name)
    ensures !FirstMatch(flat, name).NotAggregate?
  {
    if flat != [] {
      FoundIfListed(flat[1..], name);
      if i :| 0 <= i < |flat| && flat[i].name == Some(name) {
        assert i > 0 ==> flat[1..][i - 1].name == Some(name);
      }
      if i :| 0 <= i < |flat[1..]| && flat[1..][i].name == Some(name) {
        assert flat[i + 1].name == Some(name);
      }
    }
  }

  lemma MemberFoundIff(t: Type, name: string)
    requires Proper(Flatten(t, 0))
    ensures Member(t, name).Found? <==> exists i :: 0 <= i < |Flatten(t, 0)| && Flatten(t, 0)[i].name == Some(name)
    ensures !Member(t, name).NotAggregate?
  {
    MemberIsFirstMatch(t, 0, name);
    FoundIfListed(Flatten(t, 0), name);
  }

  // ----- What a path resolves to -----

  /** One component alone is the first match in the flattened members, and no
      component at all is the type itself. */
  lemma OneComponent(t: Type, name: string)
    ensures Resolve(t, [name]) == FirstMatch(Flatten(t, 0), name)
    ensures Resolve(t, []) == Found(0, t)
  {
    MemberIsFirstMatch(t, 0, name);
    assert [name][1..] == [];
  }

  /** The types a path leads through, from t on, and the offset of each component in
      the flattened members of the type before it. */
  ghost predicate Trail(t: Type, path: seq<string>, types: seq<Type>, offs: seq<nat>) {
    && |types| == |offs| + 1 && |offs| <= |path| && types[0] == t
    && forall i :: 0 <= i < |offs| ==> FirstMatch(Flatten(types[i], 0), path[i]) == Found(offs[i], types[i + 1])
  }

  ghost function Sum(offs: seq<nat>): nat {
    if offs == [] then 0 else offs[0] + Sum(offs[1..])
  }

  /** r is the sum of the offsets along the whole path, or else what the first
      component that cannot be found gives. */
  ghost predicate Leads(t: Type, path: seq<string>, types: seq<Type>, offs: seq<nat>, r: Lookup) {
    && Trail(t, path, types, offs)
    && if |offs| == |path| then r == Found(Sum(offs), types[|path|])
       else !r.Found? && r == FirstMatch(Flatten(types[|offs|], 0), path[|offs|])
  }

  lemma {:induction false} PathLeads(t: Type, path: seq<string>) returns (types: seq<Type>, offs: seq<nat>)
    ensures Leads(t, path, types, offs, Resolve(t, path))
    decreases |path|
  {
    types, offs := [t], [];
    if path != [] {
      var first := Member(t, path[0]);
      MemberIsFirstMatch(t, 0, path[0]);
      if first.Found? {
        var types', offs' := PathLeads(first.typ, path[1..]);
        types, offs := [t] + types', [first.offset] + offs';
        assert offs[1..] == offs';
        forall i | 0 <= i < |offs|
          ensures FirstMatch(Flatten(types[i], 0), path[i]) == Found(offs[i], types[i + 1])
        {
          assert i > 0 ==> types[i] == types'[i - 1] && path[i] == path[1..][i - 1] && offs[i] == offs'[i - 1];
        }
      }
    }
  }

  lemma TrailStep(t: Type, path: seq<string>, types: seq<Type>, offs: seq<nat>, i: nat)
    requires Trail(t, path, types, offs) && i < |offs|
    ensures FirstMatch(Flatten(types[i], 0), path[i]) == Found(offs[i], types[i + 1])
  {
  }

  lemma NotShorter(t: Type, path: seq<string>, types: seq<Type>, offs: seq<nat>, r: Lookup,
                   types': seq<Type>, offs': seq<nat>, r': Lookup)
    requires Leads(t, path, types, offs, r) && Leads(t, path, types', offs', r')
    ensures |offs| >= |offs'|
  {
    var n := |offs|;
    if n < |offs'| {
      TrailStep(t, path, types', offs', n);
      SameTrail(t, path, types, offs, types', offs', n);
    }
  }

  /** There is one way along a path, so the result is settled by the members alone. */
  lemma LeadsOnce(t: Type, path: seq<string>, types: seq<Type>, offs: seq<nat>, r: Lookup,
                  types': seq<Type>, offs': seq<nat>, r': Lookup)
    requires Leads(t, path, types, offs, r) && Leads(t, path, types', offs', r')
    ensures r == r'
  {
    NotShorter(t, path, types, offs, r, types', offs', r');
    NotShorter(t, path, types', offs', r', types, offs, r);
    SameTrail(t, path, types, offs, types', offs', |offs|);
    forall i | 0 <= i < |offs| ensures offs[i] == offs'[i] {
      SameTrail(t, path, types, offs, types', offs', i + 1);
    }
    assert offs == offs';
  }

  lemma {:induction false} SameTrail(t: Type, path: seq<string>, types: seq<Type>, offs: seq<nat>,
                                     types': seq<Type>, offs': seq<nat>, n: nat)
    requires Trail(t, path, types, offs) && Trail(t, path, types', offs') && n <= |offs| && n <= |offs'|
    ensures types[n] == types'[n] && (n > 0 ==> offs[n - 1] == offs'[n - 1])
    decreases n
  {
    if n > 0 {
      SameTrail(t, path, types, offs, types', offs', n - 1);
      TrailStep(t, path, types, offs, n - 1);
      TrailStep(t, path, types', offs', n - 1);
    }
  }

  // ----- Paths compose, and container_of goes back -----

  lemma {:induction false} MovedTwice(a: nat, b: nat, l: Lookup)
    ensures Moved(a, Moved(b, l)) == Moved(a + b, l)
  {
  }

  /** offset(T, p.q) = offset(T, p) + offset(type of p, q); errors pass through. */
  lemma {:induction false} PathsCompose(t: Type, p: seq<string>, q: seq<string>)
    ensures Resolve(t, p + q) ==
              var first := Resolve(t, p);
              if first.Found? then Moved(first.offset, Resolve(first.typ, q)) else first
    decreases |p|
  {
    if p == [] {
      assert p + q == q;
    } else {
      assert (p + q)[1..] == p[1..] + q;
      var first := Member(t, p[0]);
      if first.Found? {
        PathsCompose(first.typ, p[1..], q);
      }
    }
  }

  /** Python's spec.split('.'). */
  function Split(spec: string): (parts: seq<string>)
    ensures |parts| >= 1
  {
    if spec == "" then [""]
    else
      var rest := Split(spec[1..]);
      if spec[0] == '.' then [""] + rest else [[spec[0]] + rest[0]] + rest[1..]
  }

  lemma {:induction false} SplitAtDot(p: string, q: string)
    ensures Split(p + "." + q) == Split(p) + Split(q)
    decreases |p|
  {
    var spec := p + "." + q;
    if p == "" {
      assert spec[1..] == q;
    } else {
      assert spec[1..] == p[1..] + "." + q;
      SplitAtDot(p[1..], q);
    }
  }

  /** Parts with dots between them. */
  ghost function Dotted(parts: seq<string>): string
    requires parts != []
  {
    if |parts| == 1 then parts[0] else parts[0] + "." + Dotted(parts[1..])
  }

  /** The parts have no dots, and put together again they are the specification. */
  lemma {:induction false} SplitMeaning(spec: string)
    ensures Dotted(Split(spec)) == spec
    ensures forall i :: 0 <= i < |Split(spec)| ==> '.' !in Split(spec)[i]
  {
    var parts := Split(spec);
    if spec != "" {
      var rest := Split(spec[1..]);
      SplitMeaning(spec[1..]);
      assert spec == [spec[0]] + spec[1..];
      if spec[0] == '.' {
        assert parts[1..] == rest;
        assert "" + "." + Dotted(rest) == spec;
      } else {
        assert parts[1..] == rest[1..];
        assert |rest| > 1 ==>
                 [spec[0]] + (rest[0] + "." + Dotted(rest[1..])) == ([spec[0]] + rest[0]) + "." + Dotted(rest[1..]);
      }
    }
  }

  /** The same for member specifications as they are written. */
  lemma SpecsCompose(t: Type, p: string, q: string)
    ensures Resolve(t, Split(p + "." + q)) ==
              var first := Resolve(t, Split(p));
              if first.Found? then Moved(first.offset, Resolve(first.typ, Split(q))) else first
  {
    SplitAtDot(p, q);
    PathsCompose(t, Split(p), Split(q));
  }

  const ADDRESS_SPACE: nat := 0x1_0000_0000_0000_0000

  /** Pointer arithmetic on `char *`, modulo the address space. */
  function Plus(a: nat, off: int): nat {
    (a + off) % ADDRESS_SPACE
  }

  /** `container_of`: the address of the object that has `a` as its member. */
  function ContainerOf(a: nat, t: Type, path: seq<string>): Option<nat> {
    var l := Resolve(t, path);
    if l.Found? then Some(Plus(a, -(l.offset as int))) else None
  }

  function MemberAddr(obj: nat, t: Type, path: seq<string>): Option<nat> {
    var l := Resolve(t, path);
    if l.Found? then Some(Plus(obj, l.offset)) else None
  }

  /** Taking a member's address and going back to its container are inverse, also
      when the addition wraps around. */
  lemma ContainerOfInverts(obj: nat, t: Type, path: seq<string>)
    requires obj < ADDRESS_SPACE && MemberAddr(obj, t, path).Some?
    ensures ContainerOf(MemberAddr(obj, t, path).value, t, path) == Some(obj)
    ensures ContainerOf(obj, t, path).Some? &&
            MemberAddr(ContainerOf(obj, t, path).value, t, path) == Some(obj)
  {
    var off := Resolve(t, path).offset;
    ThereAndBack(obj, off);
    ThereAndBack(obj, -(off as int));
  }

  /** The member lies above its object by its offset, once round the address space
      if that is what it takes. */
  lemma MemberLiesAbove(obj: nat, t: Type, path: seq<string>)
    requires obj < ADDRESS_SPACE && Resolve(t, path).Found?
    ensures MemberAddr(obj, t, path).Some? && ContainerOf(obj, t, path).Some?
    ensures var off, m := Resolve(t, path).offset, MemberAddr(obj, t, path).value;
            && m < ADDRESS_SPACE
            && (obj + off < ADDRESS_SPACE ==> m == obj + off)
            && (off <= ADDRESS_SPACE <= obj + off ==> m == obj + off - ADDRESS_SPACE)
    ensures var off, c := Resolve(t, path).offset, ContainerOf(obj, t, path).value;
            && c < ADDRESS_SPACE
            && (off <= obj ==> c == obj - off)
            && (obj < off <= ADDRESS_SPACE ==> c == obj + ADDRESS_SPACE - off)
  {
  }

  lemma ThereAndBack(a: nat, off: int)
    requires a < ADDRESS_SPACE
    ensures Plus(Plus(a, off), -off) == a
  {
    var q := (a + off) / ADDRESS_SPACE;
    assert Plus(a, off) == a + off - q * ADDRESS_SPACE;
    assert (a - q * ADDRESS_SPACE) % ADDRESS_SPACE == a;
  }
}
