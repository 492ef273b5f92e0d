/**
 The envelope validator (`validate_envelope` in tools/check_schema_conformance.py): a recursive walk whose
 closures share one error list, judged against JSON Schema draft 2020-12.
 */
module Schema {
  import opened Wrappers

  datatype Json =
    | Null
    | Bool(b: bool)
    | Int(n: int)
    | Float(x: real)
    | Str(s: string)
    | Arr(elems: seq<Json>)
    | Obj(fields: seq<Field>)

  datatype Field = Field(key: string, value: Json)

  /** A schema node, with the keywords the validator reads; `ref` is the definition a `$ref` names. */
  datatype Node = Node(
    ref: Option<string>,
    anyOf: Branches,
    types: seq<string>,
    required: seq<string>,
    properties: seq<Property>)

  datatype Branches = Absent | AnyOf(alts: seq<Node>)

  datatype Property = Property(name: string, node: Node)

  predicate HasKey(fields: seq<Field>, k: string) {
    exists i | 0 <= i < |fields| :: fields[i].key == k
  }

  /** The schema of property `k`; a key given twice keeps its last schema. */
  function Lookup(props: seq<Property>, k: string): Option<Node> {
    if props == [] then None
    else if props[|props| - 1].name == k then Some(props[|props| - 1].node)
    else Lookup(props[..|props| - 1], k)
  }

  /**
   The definitions, ranked so that following `$ref` and `anyOf` without entering a property always leads
   to a lower rank; without such a ranking the walk does not return.
   */
  datatype Defs = Defs(nodes: map<string, Node>, rank: map<string, nat>, bound: nat) {
    predicate Valid() {
      forall name | name in nodes ::
        name in rank && rank[name] < bound && Ranked(nodes[name], rank[name])
    }

    predicate Ranked(node: Node, n: nat)
      decreases node
    {
      && (node.ref.Some? ==>
            node.ref.value in nodes && node.ref.value in rank && rank[node.ref.value] < n)
      && (node.anyOf.AnyOf? ==> forall i | 0 <= i < |node.anyOf.alts| :: Ranked(node.anyOf.alts[i], n))
      && (forall i | 0 <= i < |node.properties| :: Ranked(node.properties[i].node, bound))
    }

    lemma LookupRanked(props: seq<Property>, k: string)
      requires forall i | 0 <= i < |props| :: Ranked(props[i].node, bound)
      ensures Lookup(props, k).Some? ==> Ranked(Lookup(props, k).value, bound)
    {
      LookupIsLast(props, k);
    }
  }

  /** The property that counts for key `k`: the last one of that name. */
  predicate Governs(props: seq<Property>, k: string, j: nat) {
    j < |props| && props[j].name == k && forall m | j < m < |props| :: props[m].name != k
  }

  /** What is looked up is the schema of the last property of that name, and nothing exactly when none has it. */
  lemma {:induction false} LookupIsLast(props: seq<Property>, k: string)
    ensures Lookup(props, k).None? <==> forall j | 0 <= j < |props| :: props[j].name != k
    ensures forall j: nat | Governs(props, k, j) :: Lookup(props, k) == Some(props[j].node)
    ensures Lookup(props, k).Some? ==> exists j: nat :: Governs(props, k, j)
  {
    if props != [] {
      var n := |props| - 1;
      if props[n].name == k {
        assert Governs(props, k, n);
      } else {
        LookupIsLast(props[..n], k);
        forall j: nat ensures Governs(props, k, j) <==> Governs(props[..n], k, j) { }
      }
    }
  }

  datatype Problem =
    | NoBranch(path: string)
    | WrongType(path: string)
    | Missing(path: string, name: string)

  /** The type test as the validator makes it. */
  predicate TypeTest(v: Json, types: seq<string>) {
    || ("object" in types && v.Obj?)
    || ("array" in types && v.Arr?)
    || ("string" in types && v.Str?)
    || ("boolean" in types && v.Bool?)
    || ("null" in types && v.Null?)
    || ("integer" in types && v.Int?)
  }

  function MissingNames(required: seq<string>, fields: seq<Field>, path: string): seq<Problem> {
    if required == [] then []
    else MissingNames(required[..|required| - 1], fields, path)
         + if HasKey(fields, required[|required| - 1]) then [] else [Missing(path, required[|required| - 1])]
  }

  /** What a walk of `v` against `node` appends to the shared list. */
  function Errors(d: Defs, v: Json, node: Node, n: nat, path: string): seq<Problem>
    requires d.Valid() && d.Ranked(node, n)
    decreases v, n, node, 1, 0
  {
    if node.ref.Some? then Errors(d, v, d.nodes[node.ref.value], d.rank[node.ref.value], path)
    else if node.anyOf.AnyOf? then BranchErrors(d, v, node, n, path, 0)
    else if node.types != [] && !TypeTest(v, node.types) then [WrongType(path)]
    else if v.Obj? then MissingNames(node.required, v.fields, path) + FieldErrors(d, v, node, n, path, |v.fields|)
    else []
  }

  /** The branches from `i` on: those tried before one matches leave their errors behind. */
  function BranchErrors(d: Defs, v: Json, node: Node, n: nat, path: string, i: nat): seq<Problem>
    requires d.Valid() && d.Ranked(node, n) && node.anyOf.AnyOf? && i <= |node.anyOf.alts|
    decreases v, n, node, 0, |node.anyOf.alts| - i
  {
    if i == |node.anyOf.alts| then [NoBranch(path)]
    else
      var e := Errors(d, v, node.anyOf.alts[i], n, path);
      if e == [] then [] else e + BranchErrors(d, v, node, n, path, i + 1)
  }

  /** The first `i` fields. */
  function FieldErrors(d: Defs, v: Json, node: Node, n: nat, path: string, i: nat): seq<Problem>
    requires d.Valid() && d.Ranked(node, n) && v.Obj? && i <= |v.fields|
    decreases v, n, node, 0, i
  {
    if i == 0 then []
    else
      FieldErrors(d, v, node, n, path, i - 1)
      + FieldError(d, v, node, n, path, i - 1)
  }

  function FieldError(d: Defs, v: Json, node: Node, n: nat, path: string, i: nat): seq<Problem>
    requires d.Valid() && d.Ranked(node, n) && v.Obj? && i < |v.fields|
    decreases v, n, node, 0, i
  {
    d.LookupRanked(node.properties, v.fields[i].key);
    var p := Lookup(node.properties, v.fields[i].key);
    if p.None? then [] else Errors(d, v.fields[i].value, p.value, d.bound, path + "." + v.fields[i].key)
  }

  // ---------------------------------------------------------------------------------------------
  // The validator
  // ---------------------------------------------------------------------------------------------

  class Validator {
    const defs: Defs
    var errors: seq<Problem>

    constructor (defs: Defs)
      ensures this.defs == defs && errors == []
    {
      this.defs := defs;
      errors := [];
    }

    /** Follows `$ref` to a node that is no reference. */
    method Resolve(node: Node, ghost n: nat) returns (r: Node, ghost m: nat)
      requires defs.Valid() && defs.Ranked(node, n)
      ensures defs.Ranked(r, m) && m <= n && r.ref.None?
      ensures m < n || r == node
      ensures forall v, path :: Errors(defs, v, node, n, path) == Errors(defs, v, r, m, path)
    {
      r, m := node, n;
      while r.ref.Some?
        invariant defs.Ranked(r, m) && m <= n && (m < n || r == node)
        invariant forall v, path :: Errors(defs, v, node, n, path) == Errors(defs, v, r, m, path)
        decreases m
      {
        r, m := defs.nodes[r.ref.value], defs.rank[r.ref.value];
      }
    }

    method Walk(value: Json, node: Node, path: string, ghost n: nat)
      requires defs.Valid() && defs.Ranked(node, n)
      modifies this`errors
      ensures errors == old(errors) + Errors(defs, value, node, n, path)
      decreases value, n, node, 1, 0
    {
      var r, m := Resolve(node, n);
      if r.anyOf.AnyOf? {
        WalkBranches(value, r, path, m);
        return;
      }
      if r.types != [] && !TypeTest(value, r.types) {
        errors := errors + [WrongType(path)];
        return;
      }
      if value.Obj? {
        WalkRequired(value, r, path);
        WalkFields(value, r, path, m);
      }
    }

    method WalkRequired(value: Json, node: Node, path: string)
      requires value.Obj?
      modifies this`errors
      ensures errors == old(errors) + MissingNames(node.required, value.fields, path)
    {
      for i := 0 to |node.required|
        invariant errors == old(errors) + MissingNames(node.required[..i], value.fields, path)
      {
        assert node.required[..i + 1][..i] == node.required[..i];
        if !HasKey(value.fields, node.required[i]) { errors := errors + [Missing(path, node.required[i])]; }
      }
      assert node.required[..|node.required|] == node.required;
    }

    method WalkFields(value: Json, node: Node, path: string, ghost n: nat)
      requires defs.Valid() && defs.Ranked(node, n) && value.Obj?
      modifies this`errors
      ensures errors == old(errors) + FieldErrors(defs, value, node, n, path, |value.fields|)
      decreases value, n, node, 0, 0
    {
      for i := 0 to |value.fields|
        invariant errors == old(errors) + FieldErrors(defs, value, node, n, path, i)
      {
        var f := value.fields[i];
        defs.LookupRanked(node.properties, f.key);
        var p := Lookup(node.properties, f.key);
        if p.Some? { Walk(f.value, p.value, path + "." + f.key, defs.bound); }
      }
    }

    method WalkBranches(value: Json, node: Node, path: string, ghost n: nat)
      requires defs.Valid() && defs.Ranked(node, n) && node.ref.None? && node.anyOf.AnyOf?
      modifies this`errors
      ensures errors == old(errors) + BranchErrors(defs, value, node, n, path, 0)
      decreases value, n, node, 0, 0
    {
      var matched := false;
      var i := 0;
      while i < |node.anyOf.alts| && !matched
        invariant i <= |node.anyOf.alts|
        invariant var rest := BranchErrors(defs, value, node, n, path, i);
                  !matched ==> errors + rest == old(errors) + BranchErrors(defs, value, node, n, path, 0)
        invariant matched ==> errors == old(errors) + BranchErrors(defs, value, node, n, path, 0)
        decreases |node.anyOf.alts| - i, !matched
      {
        var found := WalkCollect(value, node.anyOf.alts[i], path, n);
        if found == [] { matched := true; }
        i := i + 1;
      }
      if !matched { errors := errors + [NoBranch(path)]; }
    }

    method WalkCollect(value: Json, node: Node, path: string, ghost n: nat) returns (found: seq<Problem>)
      requires defs.Valid() && defs.Ranked(node, n)
      modifies this`errors
      ensures found == Errors(defs, value, node, n, path)
      ensures errors == old(errors) + found
      decreases value, n, node, 2, 0
    {
      var before := |errors|;
      Walk(value, node, path, n);
      found := errors[before..];
    }
  }

  method ValidateEnvelope(instance: Json, root: Node, defs: Defs) returns (errors: seq<Problem>)
    requires defs.Valid() && defs.Ranked(root, defs.bound)
    ensures errors == Errors(defs, instance, root, defs.bound, "$")
    ensures errors == [] <==> FirstBranchValid(defs, instance, root, defs.bound)
    ensures CutDefs(defs).Valid() && CutDefs(defs).Ranked(Cut(root), defs.bound)
    ensures NoNumbers(defs) && NoNumber(root) && NoWholeFloat(instance) ==>
              (errors == [] <==> Valid(CutDefs(defs), instance, Cut(root), defs.bound))
    ensures errors == [] && AllFlat(defs) && Flat(root) ==> Valid(defs, instance, root, defs.bound)
  {
    hide FirstBranchValid, Valid, Errors, NoWholeFloat, NoNumber, NoNumbers, Cut, CutDefs, Flat, AllFlat;
    AcceptsExactly(defs, instance, root, defs.bound, "$");
    CutDefsValid(defs);
    CutRanked(defs, root, defs.bound);
    if NoNumbers(defs) && NoNumber(root) && NoWholeFloat(instance) {
      CutIsStandard(defs, instance, root, defs.bound);
    }
    if FirstBranchValid(defs, instance, root, defs.bound) && AllFlat(defs) && Flat(root) {
      AcceptanceIsSound(defs, instance, root, defs.bound);
    }
    var v := new Validator(defs);
    v.Walk(instance, root, "$", defs.bound);
    errors := v.errors;
  }

  // ---------------------------------------------------------------------------------------------
  // What is reported, and where
  // ---------------------------------------------------------------------------------------------

  /** Every report of a walk is at or below the path it started from. */
  lemma {:induction false} ReportsAreBelow(d: Defs, v: Json, node: Node, n: nat, path: string, e: Problem)
    requires d.Valid() && d.Ranked(node, n) && e in Errors(d, v, node, n, path)
    ensures path <= e.path
    decreases v, n, node, 2, 0
  {
    if node.ref.Some? {
      ReportsAreBelow(d, v, d.nodes[node.ref.value], d.rank[node.ref.value], path, e);
    } else if node.anyOf.AnyOf? {
      BranchReportsAreBelow(d, v, node, n, path, 0, e);
    } else if v.Obj? && !(node.types != [] && !TypeTest(v, node.types)) {
      MissingIs(node.required, v.fields, path, e);
      if e in FieldErrors(d, v, node, n, path, |v.fields|) {
        var _ := FieldReportIsBelow(d, v, node, n, path, |v.fields|, e);
      }
    }
  }

  lemma {:induction false} BranchReportsAreBelow(d: Defs, v: Json, node: Node, n: nat, path: string, i: nat, e: Problem)
    requires d.Valid() && d.Ranked(node, n) && node.anyOf.AnyOf? && i <= |node.anyOf.alts|
    requires e in BranchErrors(d, v, node, n, path, i)
    ensures path <= e.path
    decreases v, n, node, 1, |node.anyOf.alts| - i
  {
    if i < |node.anyOf.alts| {
      var here := Errors(d, v, node.anyOf.alts[i], n, path);
      if e in here {
        ReportsAreBelow(d, v, node.anyOf.alts[i], n, path, e);
      } else {
        BranchReportsAreBelow(d, v, node, n, path, i + 1, e);
      }
    }
  }

  /** A report about a field is below the path of that field. */
  lemma {:induction false} FieldReportIsBelow(d: Defs, v: Json, node: Node, n: nat, path: string, k: nat, e: Problem)
    returns (i: nat)
    requires d.Valid() && d.Ranked(node, n) && v.Obj? && k <= |v.fields| && e in FieldErrors(d, v, node, n, path, k)
    ensures i < k && e in FieldError(d, v, node, n, path, i) && path + "." + v.fields[i].key <= e.path
    decreases v, n, node, 1, k
  {
    if e in FieldErrors(d, v, node, n, path, k - 1) {
      i := FieldReportIsBelow(d, v, node, n, path, k - 1, e);
    } else {
      i := k - 1;
      d.LookupRanked(node.properties, v.fields[i].key);
      var p := Lookup(node.properties, v.fields[i].key);
      ReportsAreBelow(d, v.fields[i].value, p.value, d.bound, path + "." + v.fields[i].key, e);
    }
  }

  lemma {:induction false} MissingIs(required: seq<string>, fields: seq<Field>, path: string, e: Problem)
    ensures e in MissingNames(required, fields, path)
       <==> && e.Missing? && e.path == path && e.name in required
            && forall i | 0 <= i < |fields| :: fields[i].key != e.name
  {
    if required != [] { MissingIs(required[..|required| - 1], fields, path, e); }
  }

  lemma {:induction false} FieldErrorsHold(
    d: Defs, v: Json, node: Node, n: nat, path: string, k: nat, i: nat, e: Problem)
    requires d.Valid() && d.Ranked(node, n) && v.Obj? && i < k <= |v.fields| && e in FieldError(d, v, node, n, path, i)
    ensures e in FieldErrors(d, v, node, n, path, k)
    decreases k
  {
    if i < k - 1 { FieldErrorsHold(d, v, node, n, path, k - 1, i, e); }
  }

  /**
   The branches of an `anyOf` from `i` on: the reports of every branch tried before one passes, and, exactly
   when none passes, after them that none did.
   */
  lemma {:induction false} BranchReports(d: Defs, v: Json, node: Node, n: nat, path: string, i: nat, m: nat)
    requires d.Valid() && d.Ranked(node, n) && node.anyOf.AnyOf? && i <= m <= |node.anyOf.alts|
    requires forall j | i <= j < m :: BranchFails(d, v, node, n, path, j)
    requires m < |node.anyOf.alts| ==> !BranchFails(d, v, node, n, path, m)
    ensures var all := BranchErrors(d, v, node, n, path, i);
            && (forall j, e | i <= j < m && FromBranch(d, v, node, n, path, j, e) :: e in all)
            && (m == |node.anyOf.alts| ==> all != [] && all[|all| - 1] == NoBranch(path))
            && (forall e | e in all ::
                  e == NoBranch(path) || exists j | i <= j < m :: FromBranch(d, v, node, n, path, j, e))
            && (m < |node.anyOf.alts| && i == m ==> all == [])
    decreases m - i
  {
    if i < m {
      assert BranchFails(d, v, node, n, path, i);
      BranchReports(d, v, node, n, path, i + 1, m);
      var here, rest := Errors(d, v, node.anyOf.alts[i], n, path), BranchErrors(d, v, node, n, path, i + 1);
      assert BranchErrors(d, v, node, n, path, i) == here + rest;
      assert forall e :: e in here <==> FromBranch(d, v, node, n, path, i, e);
    }
  }

  predicate FromBranch(d: Defs, v: Json, node: Node, n: nat, path: string, j: nat, e: Problem)
    requires d.Valid() && d.Ranked(node, n) && node.anyOf.AnyOf? && j < |node.anyOf.alts|
  {
    e in Errors(d, v, node.anyOf.alts[j], n, path)
  }

  predicate BranchFails(d: Defs, v: Json, node: Node, n: nat, path: string, j: nat)
    requires d.Valid() && d.Ranked(node, n) && node.anyOf.AnyOf? && j < |node.anyOf.alts|
  {
    Errors(d, v, node.anyOf.alts[j], n, path) != []
  }

  /** Problem `e` is what the walk of field `i` against property `j` reports below that field. */
  predicate FromField(d: Defs, v: Json, node: Node, n: nat, path: string, i: nat, j: nat, e: Problem)
    requires d.Valid() && d.Ranked(node, n) && v.Obj? && i < |v.fields| && j < |node.properties|
  {
    e in Errors(d, v.fields[i].value, node.properties[j].node, d.bound, path + "." + v.fields[i].key)
  }

  ghost predicate FromSomeField(d: Defs, v: Json, node: Node, n: nat, path: string, e: Problem)
    requires d.Valid() && d.Ranked(node, n) && v.Obj?
  {
    exists i, j | 0 <= i < |v.fields| && 0 <= j < |node.properties| ::
      Governs(node.properties, v.fields[i].key, j) && FromField(d, v, node, n, path, i, j, e)
  }

  lemma FieldReports(d: Defs, v: Json, node: Node, n: nat, path: string, e: Problem)
    requires d.Valid() && d.Ranked(node, n) && v.Obj?
    ensures e in FieldErrors(d, v, node, n, path, |v.fields|) <==> FromSomeField(d, v, node, n, path, e)
  {
    hide Lookup, Governs;
    if e in FieldErrors(d, v, node, n, path, |v.fields|) {
      var i := FieldReportIsBelow(d, v, node, n, path, |v.fields|, e);
      LookupIsLast(node.properties, v.fields[i].key);
      var j: nat :| Governs(node.properties, v.fields[i].key, j);
      GovernsFits(node.properties, v.fields[i].key, j);
      assert FromField(d, v, node, n, path, i, j, e);
    }
    if FromSomeField(d, v, node, n, path, e) {
      var i, j :| 0 <= i < |v.fields| && 0 <= j < |node.properties|
                  && Governs(node.properties, v.fields[i].key, j) && FromField(d, v, node, n, path, i, j, e);
      LookupIsLast(node.properties, v.fields[i].key);
      FieldErrorsHold(d, v, node, n, path, |v.fields|, i, e);
    }
  }

  lemma GovernsFits(props: seq<Property>, k: string, j: nat)
    requires Governs(props, k, j)
    ensures j < |props|
  {
  }

  /**
   The reports of a node that is no reference and has no `anyOf`: its type alone when the type is wrong;
   otherwise, for an object, the missing names at its own path, and for each field with a schema what the walk
   of that field reports below it.
   */
  lemma PlainReports(d: Defs, v: Json, node: Node, n: nat, path: string)
    requires d.Valid() && d.Ranked(node, n) && node.ref.None? && node.anyOf.Absent?
    ensures node.types != [] && !TypeTest(v, node.types) ==> Errors(d, v, node, n, path) == [WrongType(path)]
    ensures (node.types == [] || TypeTest(v, node.types)) && !v.Obj? ==> Errors(d, v, node, n, path) == []
    ensures (node.types == [] || TypeTest(v, node.types)) && v.Obj? ==>
              && (forall name :: Missing(path, name) in Errors(d, v, node, n, path)
                            <==> name in node.required && forall i | 0 <= i < |v.fields| :: v.fields[i].key != name)
              && (forall e :: e in Errors(d, v, node, n, path) ==>
                                (e.Missing? && e.path == path) || FromSomeField(d, v, node, n, path, e))
              && forall e :: FromSomeField(d, v, node, n, path, e) ==> e in Errors(d, v, node, n, path)
  {
    hide Lookup;
    if (node.types == [] || TypeTest(v, node.types)) && v.Obj? {
      forall name ensures Missing(path, name) in Errors(d, v, node, n, path)
                     <==> name in node.required && forall i | 0 <= i < |v.fields| :: v.fields[i].key != name
      {
        var e := Missing(path, name);
        MissingIs(node.required, v.fields, path, e);
        if e in FieldErrors(d, v, node, n, path, |v.fields|) {
          var i := FieldReportIsBelow(d, v, node, n, path, |v.fields|, e);
        }
      }
      forall e ensures e in Errors(d, v, node, n, path) ==>
                         (e.Missing? && e.path == path) || FromSomeField(d, v, node, n, path, e)
               ensures FromSomeField(d, v, node, n, path, e) ==> e in Errors(d, v, node, n, path)
      {
        MissingIs(node.required, v.fields, path, e);
        FieldReports(d, v, node, n, path, e);
      }
    }
  }

  // ---------------------------------------------------------------------------------------------
  // What acceptance means
  // ---------------------------------------------------------------------------------------------

  predicate Provides(required: seq<string>, fields: seq<Field>) {
    forall i | 0 <= i < |required| :: HasKey(fields, required[i])
  }

  /** The validator's own notion of validity: a reference is its target, and `anyOf` is its first branch. */
  predicate FirstBranchValid(d: Defs, v: Json, node: Node, n: nat)
    requires d.Valid() && d.Ranked(node, n)
    decreases v, n, node
  {
    if node.ref.Some? then FirstBranchValid(d, v, d.nodes[node.ref.value], d.rank[node.ref.value])
    else if node.anyOf.AnyOf? then
      node.anyOf.alts != [] && FirstBranchValid(d, v, node.anyOf.alts[0], n)
    else
      && (node.types == [] || TypeTest(v, node.types))
      && (v.Obj? ==>
            && Provides(node.required, v.fields)
            && forall i | 0 <= i < |v.fields| :: FieldFirstBranchValid(d, v, node, n, i))
  }

  predicate FieldFirstBranchValid(d: Defs, v: Json, node: Node, n: nat, i: nat)
    requires d.Valid() && d.Ranked(node, n) && v.Obj? && i < |v.fields|
    decreases v, n, node, 0
  {
    d.LookupRanked(node.properties, v.fields[i].key);
    var p := Lookup(node.properties, v.fields[i].key);
    p.Some? ==> FirstBranchValid(d, v.fields[i].value, p.value, d.bound)
  }

  lemma {:induction false} NoneMissing(required: seq<string>, fields: seq<Field>, path: string)
    ensures MissingNames(required, fields, path) == [] <==> Provides(required, fields)
  {
    if required != [] {
      var k := |required| - 1;
      NoneMissing(required[..k], fields, path);
      if Provides(required[..k], fields) && HasKey(fields, required[k]) {
        forall i | 0 <= i < |required| ensures HasKey(fields, required[i]) {
          if i < k { assert HasKey(fields, required[..k][i]); }
        }
      }
    }
  }

  predicate FieldClean(d: Defs, v: Json, node: Node, n: nat, path: string, i: nat)
    requires d.Valid() && d.Ranked(node, n) && v.Obj? && i < |v.fields|
  {
    FieldError(d, v, node, n, path, i) == []
  }

  lemma {:induction false} NoFieldErrors(d: Defs, v: Json, node: Node, n: nat, path: string, k: nat)
    requires d.Valid() && d.Ranked(node, n) && v.Obj? && k <= |v.fields|
    ensures FieldErrors(d, v, node, n, path, k) == []
       <==> forall i | 0 <= i < k :: FieldClean(d, v, node, n, path, i)
    decreases k
  {
    if 0 < k {
      NoFieldErrors(d, v, node, n, path, k - 1);
      assert FieldErrors(d, v, node, n, path, k) == [] <==>
             FieldErrors(d, v, node, n, path, k - 1) == [] && FieldClean(d, v, node, n, path, k - 1);
    }
  }

  /**
   The walk reports nothing exactly when the value passes the validator's own tests with every `anyOf` cut
   down to its first branch: a branch that fails before another matches leaves its errors in the shared list.
   */
  lemma {:induction false} AcceptsExactly(d: Defs, v: Json, node: Node, n: nat, path: string)
    requires d.Valid() && d.Ranked(node, n)
    ensures Errors(d, v, node, n, path) == [] <==> FirstBranchValid(d, v, node, n)
    decreases v, n, node, 1
  {
    if node.ref.Some? {
      AcceptsExactly(d, v, d.nodes[node.ref.value], d.rank[node.ref.value], path);
    } else if node.anyOf.AnyOf? {
      if node.anyOf.alts != [] { AcceptsExactly(d, v, node.anyOf.alts[0], n, path); }
    } else if v.Obj? {
      NoneMissing(node.required, v.fields, path);
      NoFieldErrors(d, v, node, n, path, |v.fields|);
      forall i | 0 <= i < |v.fields|
        ensures FieldClean(d, v, node, n, path, i) <==> FieldFirstBranchValid(d, v, node, n, i)
      {
        AcceptsField(d, v, node, n, path, i);
      }
      var missing, below := MissingNames(node.required, v.fields, path), FieldErrors(d, v, node, n, path, |v.fields|);
      assert |missing + below| == |missing| + |below|;
    }
  }

  lemma {:induction false} AcceptsField(d: Defs, v: Json, node: Node, n: nat, path: string, i: nat)
    requires d.Valid() && d.Ranked(node, n) && v.Obj? && i < |v.fields|
    ensures FieldClean(d, v, node, n, path, i) <==> FieldFirstBranchValid(d, v, node, n, i)
    decreases v, n, node, 0
  {
    d.LookupRanked(node.properties, v.fields[i].key);
    var p := Lookup(node.properties, v.fields[i].key);
    if p.Some? { AcceptsExactly(d, v.fields[i].value, p.value, d.bound, path + "." + v.fields[i].key); }
  }

  // ---------------------------------------------------------------------------------------------
  // Against the standard
  // ---------------------------------------------------------------------------------------------

  /** `type` as JSON Schema Validation draft 2020-12, section 6.1.1, has it. */
  predicate HasType(v: Json, t: string) {
    match v
    case Null => t == "null"
    case Bool(_) => t == "boolean"
    case Int(_) => t == "integer" || t == "number"
    case Float(x) => t == "number" || (t == "integer" && x == x.Floor as real)
    case Str(_) => t == "string"
    case Arr(_) => t == "array"
    case Obj(_) => t == "object"
  }

  /** `required` as section 6.5.3 has it: every name in the list is the name of a property of the value. */
  predicate Supplies(fields: seq<Field>, required: seq<string>) {
    forall r | r in required :: exists i | 0 <= i < |fields| :: fields[i].key == r
  }

  lemma ProvidesIsSupplies(required: seq<string>, fields: seq<Field>)
    ensures Provides(required, fields) <==> Supplies(fields, required)
  {
    if Provides(required, fields) {
      forall r | r in required ensures HasKey(fields, r) {
        var i :| 0 <= i < |required| && required[i] == r;
        assert HasKey(fields, required[i]);
      }
    }
    if Supplies(fields, required) {
      forall i | 0 <= i < |required| ensures HasKey(fields, required[i]) { assert required[i] in required; }
    }
  }

  /** All keywords of a node together, as the standard combines them. */
  predicate Valid(d: Defs, v: Json, node: Node, n: nat)
    requires d.Valid() && d.Ranked(node, n)
    decreases v, n, node
  {
    && (node.ref.Some? ==> Valid(d, v, d.nodes[node.ref.value], d.rank[node.ref.value]))
    && (node.anyOf.AnyOf? ==> exists i | 0 <= i < |node.anyOf.alts| :: Valid(d, v, node.anyOf.alts[i], n))
    && (node.types != [] ==> exists i | 0 <= i < |node.types| :: HasType(v, node.types[i]))
    && (v.Obj? ==>
          && Supplies(v.fields, node.required)
          && forall i | 0 <= i < |v.fields| :: FieldValid(d, v, node, n, i))
  }

  /** Field `i` is valid for the property that counts for its key, if there is one. */
  predicate FieldValid(d: Defs, v: Json, node: Node, n: nat, i: nat)
    requires d.Valid() && d.Ranked(node, n) && v.Obj? && i < |v.fields|
    decreases v, n, node, 0
  {
    forall j | 0 <= j < |node.properties| && Governs(node.properties, v.fields[i].key, j) ::
      Valid(d, v.fields[i].value, node.properties[j].node, d.bound)
  }

  predicate Bare(node: Node) {
    node.types == [] && node.required == [] && node.properties == []
  }

  /** Nothing stands beside a `$ref` or an `anyOf`, anywhere below the node. */
  predicate Flat(node: Node) {
    && (node.ref.Some? ==> node.anyOf.Absent? && Bare(node))
    && (node.anyOf.AnyOf? ==> Bare(node) && forall i | 0 <= i < |node.anyOf.alts| :: Flat(node.anyOf.alts[i]))
    && (forall i | 0 <= i < |node.properties| :: Flat(node.properties[i].node))
  }

  predicate AllFlat(d: Defs) {
    forall name | name in d.nodes :: Flat(d.nodes[name])
  }

  /** In a flat schema, whatever the walk accepts is valid by the standard. */
  lemma {:induction false} AcceptanceIsSound(d: Defs, v: Json, node: Node, n: nat)
    requires d.Valid() && d.Ranked(node, n) && AllFlat(d) && Flat(node) && FirstBranchValid(d, v, node, n)
    ensures Valid(d, v, node, n)
    decreases v, n, node, 1
  {
    if node.ref.Some? {
      AcceptanceIsSound(d, v, d.nodes[node.ref.value], d.rank[node.ref.value]);
      BareFields(d, v, node, n);
    } else if node.anyOf.AnyOf? {
      AcceptanceIsSound(d, v, node.anyOf.alts[0], n);
      BareFields(d, v, node, n);
    } else {
      if v.Obj? {
        ProvidesIsSupplies(node.required, v.fields);
        forall i | 0 <= i < |v.fields| ensures FieldValid(d, v, node, n, i) { FieldIsSound(d, v, node, n, i); }
      }
    }
  }

  lemma BareFields(d: Defs, v: Json, node: Node, n: nat)
    requires d.Valid() && d.Ranked(node, n) && Bare(node)
    ensures v.Obj? ==> Supplies(v.fields, node.required)
    ensures v.Obj? ==> forall i | 0 <= i < |v.fields| :: FieldValid(d, v, node, n, i)
  {
  }

  lemma {:induction false} FieldIsSound(d: Defs, v: Json, node: Node, n: nat, i: nat)
    requires d.Valid() && d.Ranked(node, n) && AllFlat(d) && Flat(node) && v.Obj? && i < |v.fields|
    requires FieldFirstBranchValid(d, v, node, n, i)
    ensures FieldValid(d, v, node, n, i)
    decreases v, n, node, 0
  {
    d.LookupRanked(node.properties, v.fields[i].key);
    LookupIsLast(node.properties, v.fields[i].key);
    var p := Lookup(node.properties, v.fields[i].key);
    if p.Some? { AcceptanceIsSound(d, v.fields[i].value, p.value, d.bound); }
  }

  // ---------------------------------------------------------------------------------------------
  // The schema the validator really applies
  // ---------------------------------------------------------------------------------------------

  /** The node without what the walk never looks at: all but the first branch, and siblings of `$ref` and `anyOf`. */
  function Cut(node: Node): Node {
    if node.ref.Some? then Node(node.ref, Absent, [], [], [])
    else if node.anyOf.AnyOf? then
      Node(None, AnyOf(if node.anyOf.alts == [] then [] else [Cut(node.anyOf.alts[0])]), [], [], [])
    else Node(None, Absent, node.types, node.required, CutAll(node.properties))
  }

  function CutAll(props: seq<Property>): (r: seq<Property>)
    ensures |r| == |props|
    ensures forall i | 0 <= i < |props| :: r[i] == Property(props[i].name, Cut(props[i].node))
  {
    if props == [] then []
    else
      CutAll(props[..|props| - 1]) + [Property(props[|props| - 1].name, Cut(props[|props| - 1].node))]
  }

  function CutDefs(d: Defs): Defs {
    Defs(map name | name in d.nodes :: Cut(d.nodes[name]), d.rank, d.bound)
  }

  lemma {:induction false} CutRanked(d: Defs, node: Node, n: nat)
    requires d.Ranked(node, n)
    ensures CutDefs(d).Ranked(Cut(node), n)
    decreases node
  {
    if node.ref.None? {
      if node.anyOf.AnyOf? {
        if node.anyOf.alts != [] { CutRanked(d, node.anyOf.alts[0], n); }
      } else {
        forall i | 0 <= i < |node.properties| ensures CutDefs(d).Ranked(Cut(node.properties[i].node), d.bound) {
          CutRanked(d, node.properties[i].node, d.bound);
        }
      }
    }
  }

  lemma CutDefsValid(d: Defs)
    requires d.Valid()
    ensures CutDefs(d).Valid()
  {
    forall name | name in d.nodes ensures CutDefs(d).Ranked(Cut(d.nodes[name]), d.rank[name]) {
      CutRanked(d, d.nodes[name], d.rank[name]);
    }
  }

  lemma {:induction false} LookupCut(props: seq<Property>, k: string)
    ensures Lookup(CutAll(props), k)
         == match Lookup(props, k) case None => None case Some(node) => Some(Cut(node))
  {
    if props != [] { LookupCut(props[..|props| - 1], k); }
  }

  /** Where the validator's type test is stricter than the standard: numbers that are not written as integers. */
  predicate Mistyped(v: Json, types: seq<string>) {
    || (v.Int? && "number" in types && "integer" !in types)
    || (v.Float? && ("number" in types || ("integer" in types && v.x == v.x.Floor as real)))
  }

  /** The type test gives the standard's answer exactly outside those cases. */
  lemma TypeTestExactly(v: Json, types: seq<string>)
    ensures (TypeTest(v, types) <==> exists i | 0 <= i < |types| :: HasType(v, types[i])) <==> !Mistyped(v, types)
  {
  }

  /** No node asks for the type `number`, which the validator does not know. */
  predicate NoNumber(node: Node) {
    && "number" !in node.types
    && (node.anyOf.AnyOf? ==> forall i | 0 <= i < |node.anyOf.alts| :: NoNumber(node.anyOf.alts[i]))
    && (forall i | 0 <= i < |node.properties| :: NoNumber(node.properties[i].node))
  }

  predicate NoNumbers(d: Defs) {
    forall name | name in d.nodes :: NoNumber(d.nodes[name])
  }

  /** No float in the value is a whole number. */
  predicate NoWholeFloat(v: Json) {
    match v
    case Float(x) => x != x.Floor as real
    case Arr(elems) => forall i | 0 <= i < |elems| :: NoWholeFloat(elems[i])
    case Obj(fields) => forall i | 0 <= i < |fields| :: NoWholeFloat(fields[i].value)
    case _ => true
  }

  /**
   Against the standard, for every schema that names no `number` and every value without whole floats:
   the validator's notion of validity is the standard's validity for the cut schema.
   */
  lemma {:induction false} CutIsStandard(d: Defs, v: Json, node: Node, n: nat)
    requires d.Valid() && d.Ranked(node, n) && NoNumbers(d) && NoNumber(node) && NoWholeFloat(v)
    ensures CutDefs(d).Valid() && CutDefs(d).Ranked(Cut(node), n)
    ensures FirstBranchValid(d, v, node, n) <==> Valid(CutDefs(d), v, Cut(node), n)
    decreases v, n, node, 1
  {
    hide TypeTest, HasType, NoWholeFloat;
    CutDefsValid(d);
    CutRanked(d, node, n);
    var c := CutDefs(d);
    if node.ref.Some? {
      CutIsStandard(d, v, d.nodes[node.ref.value], d.rank[node.ref.value]);
      BareFields(c, v, Cut(node), n);
    } else if node.anyOf.AnyOf? {
      BareFields(c, v, Cut(node), n);
      if node.anyOf.alts != [] {
        CutIsStandard(d, v, node.anyOf.alts[0], n);
        assert Cut(node).anyOf.alts[0] == Cut(node.anyOf.alts[0]);
      }
    } else {
      CutPlain(d, v, node, n);
    }
  }

  lemma {:induction false} CutPlain(d: Defs, v: Json, node: Node, n: nat)
    requires d.Valid() && d.Ranked(node, n) && NoNumbers(d) && NoNumber(node) && NoWholeFloat(v)
    requires CutDefs(d).Valid() && CutDefs(d).Ranked(Cut(node), n) && node.ref.None? && node.anyOf.Absent?
    ensures FirstBranchValid(d, v, node, n) <==> Valid(CutDefs(d), v, Cut(node), n)
    decreases v, n, node, 0, 1
  {
    hide TypeTest, HasType, NoWholeFloat;
    TypesAgree(v, node.types);
    if v.Obj? {
      ProvidesIsSupplies(node.required, v.fields);
      forall i | 0 <= i < |v.fields|
        ensures FieldFirstBranchValid(d, v, node, n, i) <==> FieldValid(CutDefs(d), v, Cut(node), n, i)
      {
        CutField(d, v, node, n, i);
      }
    }
  }

  lemma TypesAgree(v: Json, types: seq<string>)
    requires "number" !in types && NoWholeFloat(v)
    ensures TypeTest(v, types) <==> exists i | 0 <= i < |types| :: HasType(v, types[i])
  {
    hide TypeTest, HasType;
    TypeTestExactly(v, types);
  }

  lemma {:induction false} CutField(d: Defs, v: Json, node: Node, n: nat, i: nat)
    requires d.Valid() && d.Ranked(node, n) && NoNumbers(d) && NoNumber(node) && NoWholeFloat(v)
    requires CutDefs(d).Valid() && CutDefs(d).Ranked(Cut(node), n)
    requires node.ref.None? && node.anyOf.Absent? && v.Obj? && i < |v.fields|
    ensures FieldFirstBranchValid(d, v, node, n, i) <==> FieldValid(CutDefs(d), v, Cut(node), n, i)
    decreases v, n, node, 0, 0
  {
    var f := v.fields[i];
    d.LookupRanked(node.properties, f.key);
    LookupIsLast(node.properties, f.key);
    LookupCut(node.properties, f.key);
    var p := Lookup(node.properties, f.key);
    if p.Some? { CutIsStandard(d, f.value, p.value, d.bound); }
  }

  function TypeOnly(t: string): Node {
    Node(None, Absent, [t], [], [])
  }

  const NO_DEFS := Defs(map[], map[], 0)

  /** The published envelope's own shape, string or null, rejects the null it allows. */
  lemma NullableIsRejected()
    ensures NO_DEFS.Valid()
    ensures var node := Node(None, AnyOf([TypeOnly("string"), TypeOnly("null")]), [], [], []);
            && NO_DEFS.Ranked(node, 0)
            && Valid(NO_DEFS, Null, node, 0)
            && Errors(NO_DEFS, Null, node, 0, "$") != []
  {
    var node := Node(None, AnyOf([TypeOnly("string"), TypeOnly("null")]), [], [], []);
    assert HasType(Null, TypeOnly("null").types[0]);
    assert NO_DEFS.Ranked(node.anyOf.alts[1], 0) && Valid(NO_DEFS, Null, node.anyOf.alts[1], 0);
    AcceptsExactly(NO_DEFS, Null, node, 0, "$");
  }

  /** A keyword beside `anyOf` is ignored: a number passes where a string is demanded. */
  lemma SiblingIsIgnored()
    ensures NO_DEFS.Valid()
    ensures var node := Node(None, AnyOf([TypeOnly("integer")]), ["string"], [], []);
            && NO_DEFS.Ranked(node, 0)
            && Errors(NO_DEFS, Int(1), node, 0, "$") == []
            && !Valid(NO_DEFS, Int(1), node, 0)
  {
    var node := Node(None, AnyOf([TypeOnly("integer")]), ["string"], [], []);
    AcceptsExactly(NO_DEFS, Int(1), node, 0, "$");
  }

  /** A keyword beside `$ref` is ignored too. */
  lemma ReferenceSiblingIsIgnored()
    ensures var d := Defs(map["D" := TypeOnly("integer")], map["D" := 0], 1);
            var node := Node(Some("D"), Absent, ["string"], [], []);
            && d.Valid() && d.Ranked(node, 1)
            && Errors(d, Int(1), node, 1, "$") == []
            && !Valid(d, Int(1), node, 1)
  {
    var d := Defs(map["D" := TypeOnly("integer")], map["D" := 0], 1);
    var node := Node(Some("D"), Absent, ["string"], [], []);
    AcceptsExactly(d, Int(1), node, 1, "$");
  }

  /** Two values the standard accepts and the validator does not: an integer as a number, 1.0 as an integer. */
  lemma NumbersAreRejected()
    ensures NO_DEFS.Valid() && NO_DEFS.Ranked(TypeOnly("number"), 0) && NO_DEFS.Ranked(TypeOnly("integer"), 0)
    ensures Valid(NO_DEFS, Int(1), TypeOnly("number"), 0) && Errors(NO_DEFS, Int(1), TypeOnly("number"), 0, "$") != []
    ensures Valid(NO_DEFS, Float(1.0), TypeOnly("integer"), 0)
    ensures Errors(NO_DEFS, Float(1.0), TypeOnly("integer"), 0, "$") != []
  {
    assert HasType(Int(1), TypeOnly("number").types[0]);
    assert HasType(Float(1.0), TypeOnly("integer").types[0]);
  }
}
