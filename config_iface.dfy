/**
 * The property-driven defaults of the GimpConfig interface
 * (libgimpconfig/gimpconfig-iface.c): equality of two config objects,
 * property by property with recursion into aggregated config objects, and
 * the choice of construct-time parameters when an object is duplicated,
 * together with the same-type checks of gimp_config_is_equal_to and
 * gimp_config_copy.
 *
 * A config object is a value of a finite tree: each object property holds a
 * reference that may point at another config object, so recursive equality
 * terminates; cyclic aggregation cannot be expressed.
 */
module ConfigIface {
  import opened Optional

  /** The GParamFlags bits the interface reads (GIMP_CONFIG_PARAM_AGGREGATE included). */
  datatype ParamFlag = Readable | Writable | ConstructOnly | Aggregate

  /**
   * The value type of a property: a plain value, or an object type that may
   * or may not implement GimpConfig (G_IS_PARAM_SPEC_OBJECT and the
   * g_type_interface_peek test of lines 219-223).
   */
  datatype ValueKind = PlainKind | ObjectKind(implementsConfig: bool)

  /** A GParamSpec: name, flags and value type. */
  datatype PropSpec = PropSpec(name: string, flags: set<ParamFlag>, kind: ValueKind)

  /** A GObject class: its type name and its property specs in declaration order. */
  datatype ConfigClass = ConfigClass(typeName: string, specs: seq<PropSpec>)

  /**
   * A property value. Plain values stand for the non-object values that
   * g_param_values_cmp compares exactly; an object value holds a possibly
   * NULL reference.
   */
  datatype Value = Plain(datum: int) | Obj(ref: Option<Instance>)

  /** An object: its identity (its address) and, when it implements GimpConfig, its config state. */
  datatype Instance = Instance(id: nat, config: Option<Config>)

  /** A config object: its class and the value of each property of the class, in order. */
  datatype Config = Config(cls: ConfigClass, values: seq<Value>)

  /** Every config object in the tree has one value per property spec of its class. */
  predicate WellFormed(c: Config)
    decreases c, 1
  {
    |c.values| == |c.cls.specs| &&
    forall i :: 0 <= i < |c.values| ==> ValueWellFormed(c.values[i])
  }

  predicate ValueWellFormed(v: Value)
    decreases v, 0
  {
    match v
    case Plain(_) => true
    case Obj(None) => true
    case Obj(Some(Instance(_, None))) => true
    case Obj(Some(Instance(_, Some(c)))) => WellFormed(c)
  }

  /** g_param_values_cmp (spec, a, b) == 0: equal plain values, or the same object (or both NULL). */
  predicate SameValue(x: Value, y: Value)
  {
    match (x, y)
    case (Plain(p), Plain(q)) => p == q
    case (Obj(None), Obj(None)) => true
    case (Obj(Some(i)), Obj(Some(j))) => i.id == j.id
    case _ => false
  }

  /** Lines 219-223: an aggregated property whose type implements GimpConfig. */
  predicate ComparedDeeply(spec: PropSpec)
  {
    Aggregate in spec.flags && spec.kind == ObjectKind(true)
  }

  /** The GimpConfig an object value points to, as gimp_config_is_equal_to sees it (NULL otherwise). */
  function ConfigOf(v: Value): (r: Option<Config>)
    ensures r.Some? ==> r < v
  {
    match v
    case Obj(Some(Instance(_, Some(c)))) => Some(c)
    case _ => None
  }

  /** gimp_config_is_equal_to, with the interface's default equal (lines 770-775). */
  predicate IsEqualToSpec(a: Option<Config>, b: Option<Config>)
    requires a.Some? ==> WellFormed(a.value)
    requires b.Some? ==> WellFormed(b.value)
    decreases a, 2
  {
    a.Some? && b.Some? && a.value.cls == b.value.cls && ConfigEqual(a.value, b.value)
  }

  /** gimp_config_iface_equal (lines 187-243): every readable property agrees. */
  predicate ConfigEqual(a: Config, b: Config)
    requires WellFormed(a) && WellFormed(b) && a.cls == b.cls
    decreases a, 1
  {
    forall i :: 0 <= i < |a.values| ==> PropEqual(a.cls.specs[i], a.values[i], b.values[i])
  }

  /** Lines 209-236: one property of the comparison. */
  predicate PropEqual(spec: PropSpec, x: Value, y: Value)
    requires ValueWellFormed(x) && ValueWellFormed(y)
    decreases x, 0
  {
    Readable !in spec.flags ||
    SameValue(x, y) ||
    // A NULL or non-config object makes gimp_config_is_equal_to return FALSE (lines 770-771).
    (ComparedDeeply(spec) && ConfigOf(x).Some? && IsEqualToSpec(ConfigOf(x), ConfigOf(y)))
  }

  lemma ConfigOfWellFormed(v: Value)
    requires ValueWellFormed(v)
    ensures ConfigOf(v).Some? ==> WellFormed(ConfigOf(v).value)
  {
  }

  /**
   * gimp_config_is_equal_to: both arguments must be config objects of one
   * type, otherwise the result is FALSE; then the property comparison runs.
   */
  method IsEqualTo(a: Option<Config>, b: Option<Config>) returns (equal: bool)
    requires a.Some? ==> WellFormed(a.value)
    requires b.Some? ==> WellFormed(b.value)
    ensures equal == IsEqualToSpec(a, b)
    ensures equal ==> a.Some? && b.Some? && a.value.cls == b.value.cls
    decreases a, 1
  {
    if a.None? || b.None? || a.value.cls != b.value.cls {
      return false;
    }
    equal := IfaceEqual(a.value, b.value);
  }

  /** gimp_config_iface_equal: the property loop, stopping at the first difference. */
  method IfaceEqual(a: Config, b: Config) returns (equal: bool)
    requires WellFormed(a) && WellFormed(b) && a.cls == b.cls
    ensures equal == ConfigEqual(a, b)
    decreases a, 0
  {
    var specs := a.cls.specs;
    equal := true;
    var i := 0;
    while equal && i < |specs|
      invariant i <= |specs|
      invariant equal <==> forall k :: 0 <= k < i ==> PropEqual(specs[k], a.values[k], b.values[k])
      invariant !equal ==> !ConfigEqual(a, b)
    {
      var spec := specs[i];
      if Readable !in spec.flags {
        i := i + 1;
        continue;
      }
      var x, y := a.values[i], b.values[i];
      if !SameValue(x, y) {
        if ComparedDeeply(spec) {
          ConfigOfWellFormed(x);
          ConfigOfWellFormed(y);
          var inner := false;
          if ConfigOf(x).Some? {
            inner := IsEqualTo(ConfigOf(x), ConfigOf(y));
          }
          if !inner {
            equal := false;
          }
        } else {
          equal := false;
        }
      }
      i := i + 1;
    }
  }

  // Properties of the comparison

  lemma SameValueSymmetric(x: Value, y: Value)
    ensures SameValue(x, y) == SameValue(y, x)
  {
  }

  /** Every well-formed config object equals itself. */
  lemma EqualReflexive(c: Config)
    requires WellFormed(c)
    ensures IsEqualToSpec(Some(c), Some(c))
  {
    forall i | 0 <= i < |c.values| ensures PropEqual(c.cls.specs[i], c.values[i], c.values[i]) {
      assert SameValue(c.values[i], c.values[i]);
    }
  }

  /** The comparison is symmetric, through every level of aggregation. */
  lemma {:induction false} EqualSymmetric(a: Option<Config>, b: Option<Config>)
    requires a.Some? ==> WellFormed(a.value)
    requires b.Some? ==> WellFormed(b.value)
    requires IsEqualToSpec(a, b)
    ensures IsEqualToSpec(b, a)
    decreases a, 1
  {
    ConfigEqualSymmetric(a.value, b.value);
  }

  lemma {:induction false} ConfigEqualSymmetric(a: Config, b: Config)
    requires WellFormed(a) && WellFormed(b) && a.cls == b.cls
    requires ConfigEqual(a, b)
    ensures ConfigEqual(b, a)
    decreases a, 0
  {
    forall i | 0 <= i < |b.values| ensures PropEqual(b.cls.specs[i], b.values[i], a.values[i]) {
      var spec, x, y := a.cls.specs[i], a.values[i], b.values[i];
      assert PropEqual(spec, x, y);
      SameValueSymmetric(x, y);
      if Readable in spec.flags && !SameValue(x, y) && ConfigOf(x).Some? {
        ConfigOfWellFormed(x);
        ConfigOfWellFormed(y);
        EqualSymmetric(ConfigOf(x), ConfigOf(y));
      }
    }
  }

  /** Lines 209-210: a property without the READABLE flag never makes two objects differ. */
  lemma UnreadableIgnored(a: Config, b: Config, i: nat, v: Value)
    requires WellFormed(a) && WellFormed(b) && a.cls == b.cls
    requires i < |b.values| && Readable !in b.cls.specs[i].flags && ValueWellFormed(v)
    ensures WellFormed(b.(values := b.values[i := v]))
    ensures ConfigEqual(a, b) <==> ConfigEqual(a, b.(values := b.values[i := v]))
  {
    var b' := b.(values := b.values[i := v]);
    assert forall k :: 0 <= k < |b'.values| ==> b'.values[k] == if k == i then v else b.values[k];
  }

  /**
   * Lines 211-235: two objects are unequal as soon as one readable property
   * differs in value and is not an aggregated config, or is an aggregated
   * config whose objects are unequal.
   */
  lemma DifferenceDecides(a: Config, b: Config, i: nat)
    requires WellFormed(a) && WellFormed(b) && a.cls == b.cls
    requires i < |a.values| && Readable in a.cls.specs[i].flags && !SameValue(a.values[i], b.values[i])
    ensures !ComparedDeeply(a.cls.specs[i]) ==> !ConfigEqual(a, b)
    ensures ComparedDeeply(a.cls.specs[i]) ==>
              (ConfigEqual(a, b) ==> DeepEqual(a.values[i], b.values[i]))
  {
    assert PropEqual(a.cls.specs[i], a.values[i], b.values[i]) ==> DeepEqual(a.values[i], b.values[i]);
  }

  /** The aggregated objects behind two values are equal config objects. */
  predicate DeepEqual(x: Value, y: Value)
    requires ValueWellFormed(x) && ValueWellFormed(y)
  {
    IsEqualToSpec(ConfigOf(x), ConfigOf(y))
  }

  // Construct-time parameters of gimp_config_iface_duplicate

  /** A GParameter: a property name and a value. */
  datatype Parameter = Parameter(name: string, value: Value)

  /** Lines 156-158: readable, writable and construct-only. */
  predicate IsConstructParam(spec: PropSpec)
  {
    Readable in spec.flags && Writable in spec.flags && ConstructOnly in spec.flags
  }

  /** The parameters gimp_config_iface_duplicate collects, in declaration order. */
  function ConstructParams(specs: seq<PropSpec>, values: seq<Value>): (ps: seq<Parameter>)
    requires |values| == |specs|
    ensures |ps| <= |specs|
  {
    if |specs| == 0 then []
    else
      var n := |specs| - 1;
      ConstructParams(specs[..n], values[..n]) +
      (if IsConstructParam(specs[n]) then [Parameter(specs[n].name, values[n])] else [])
  }

  /** Lines 150-170: collect the construct-only parameters into a zeroed array of one slot per spec. */
  method CollectConstructParams(c: Config) returns (params: array<Parameter>, n: nat)
    requires WellFormed(c)
    ensures fresh(params) && params.Length == |c.cls.specs|
    ensures n <= params.Length
    ensures params[..n] == ConstructParams(c.cls.specs, c.values)
    // The slots past the collected parameters keep the zero value of g_new0 (line 150).
    ensures forall k :: n <= k < params.Length ==> params[k] == Parameter("", Plain(0))
  {
    var specs := c.cls.specs;
    params := new Parameter[|specs|](_ => Parameter("", Plain(0)));
    n := 0;
    for i := 0 to |specs|
      invariant n <= i
      invariant params[..n] == ConstructParams(specs[..i], c.values[..i])
      invariant forall k :: n <= k < params.Length ==> params[k] == Parameter("", Plain(0))
    {
      assert specs[..i + 1][..i] == specs[..i];
      assert c.values[..i + 1][..i] == c.values[..i];
      var spec := specs[i];
      if Readable in spec.flags && Writable in spec.flags && ConstructOnly in spec.flags {
        params[n] := Parameter(spec.name, c.values[i]);
        n := n + 1;
      }
    }
    assert specs[..|specs|] == specs;
    assert c.values[..|specs|] == c.values;
  }

  /** A parameter is collected exactly for a construct-only property, with that property's name and value. */
  lemma {:induction false} ConstructParamsMembership(specs: seq<PropSpec>, values: seq<Value>, p: Parameter)
    requires |values| == |specs|
    ensures p in ConstructParams(specs, values) <==>
            exists i :: 0 <= i < |specs| && IsConstructParam(specs[i]) && p == Parameter(specs[i].name, values[i])
  {
    if |specs| > 0 {
      var n := |specs| - 1;
      ConstructParamsMembership(specs[..n], values[..n], p);
      if exists i :: 0 <= i < |specs| && IsConstructParam(specs[i]) && p == Parameter(specs[i].name, values[i]) {
        var i :| 0 <= i < |specs| && IsConstructParam(specs[i]) && p == Parameter(specs[i].name, values[i]);
        if i < n {
          assert specs[..n][i] == specs[i] && values[..n][i] == values[i];
        }
      }
    }
  }

  /** The parameters keep declaration order: collecting over two runs of specs concatenates. */
  lemma {:induction false} ConstructParamsAppend(s1: seq<PropSpec>, v1: seq<Value>, s2: seq<PropSpec>, v2: seq<Value>)
    requires |v1| == |s1| && |v2| == |s2|
    ensures ConstructParams(s1 + s2, v1 + v2) == ConstructParams(s1, v1) + ConstructParams(s2, v2)
  {
    if |s2| == 0 {
      assert s1 + s2 == s1 && v1 + v2 == v1;
    } else {
      var n := |s2| - 1;
      assert (s1 + s2)[..|s1| + n] == s1 + s2[..n];
      assert (v1 + v2)[..|v1| + n] == v1 + v2[..n];
      ConstructParamsAppend(s1, v1, s2[..n], v2[..n]);
    }
  }

  /** When every property is construct-only, every property is collected; when none is, nothing is. */
  lemma {:induction false} ConstructParamsExtremes(specs: seq<PropSpec>, values: seq<Value>)
    requires |values| == |specs|
    ensures (forall i :: 0 <= i < |specs| ==> IsConstructParam(specs[i])) ==> |ConstructParams(specs, values)| == |specs|
    ensures (forall i :: 0 <= i < |specs| ==> !IsConstructParam(specs[i])) ==> ConstructParams(specs, values) == []
  {
    if |specs| > 0 {
      var n := |specs| - 1;
      ConstructParamsExtremes(specs[..n], values[..n]);
    }
  }

  // The same-type checks of gimp_config_copy

  /**
   * gimp_config_copy (lines 823-833): when both are config objects of one
   * type, the interface's copy (gimp_config_sync, not part of this model) is
   * applied and its result returned; otherwise dest is left alone and the
   * result is FALSE.
   */
  function Copy(src: Option<Config>, dest: Option<Config>, flags: set<ParamFlag>,
                sync: (Config, Config, set<ParamFlag>) -> (Config, bool)): (r: (Option<Config>, bool))
    ensures !(src.Some? && dest.Some? && src.value.cls == dest.value.cls) ==> r.0 == dest && !r.1
    ensures r.0.Some? <==> dest.Some?
  {
    if src.None? || dest.None? || src.value.cls != dest.value.cls then (dest, false)
    else
      var (d, changed) := sync(src.value, dest.value, flags);
      (Some(d), changed)
  }
}
