/**
 * The token registry: `Token` (a named, ordered list of part identifiers,
 * each normalised to contain ".dat"), the three token families filled by
 * `load_tokens`, and the alternation patterns the lexer is built from.
 */
module Tokens {
  import opened Wrappers
  import opened Seqs
  import opened Strings
  import opened Numbers

  /** A scalar of the parsed configuration, as `yaml.safe_load` gives it. */
  datatype Scalar = Text(s: string) | Int(i: int) | Bool(b: bool) | Null

  /** Python's `str(v)` on a configuration scalar. */
  function ScalarText(v: Scalar): string
  {
    match v
    case Text(s) => s
    case Int(i) => IntToString(i)
    case Bool(b) => if b then "True" else "False"
    case Null => "None"
  }

  /** What `Token.append` is given: one scalar, or a list of scalars. */
  datatype ConfigValue = One(scalar: Scalar) | Many(items: seq<Scalar>)

  const Dat: string := ".dat"

  /** The normalisation in `Token.append`: a part identifier gains ".dat" unless it already holds it. */
  function Normalise(v: string): (r: string)
    ensures Contains(r, Dat)
    ensures Contains(v, Dat) <==> r == v
    ensures !Contains(v, Dat) ==> r == v + Dat
  {
    if Contains(v, Dat) then v
    else
      ContainsSuffix(v, Dat);
      v + Dat
  }

  /** Normalising twice is normalising once. */
  lemma NormaliseIdempotent(v: string)
    ensures Normalise(Normalise(v)) == Normalise(v)
  {
  }

  /** What `Token.append(value)` adds to the token's values, in order. */
  function Appended(value: ConfigValue): (r: seq<string>)
    ensures forall v :: v in r ==> Contains(v, Dat)
  {
    match value
    case One(x) => [Normalise(ScalarText(x))]
    case Many(xs) => seq(|xs|, i requires 0 <= i < |xs| => Normalise(ScalarText(xs[i])))
  }

  /** `regex_list`: the values, in stored order and unescaped, joined by "|" in parentheses. */
  function Alternation(values: seq<string>): (r: string)
    ensures |r| >= 2 && r[0] == '(' && r[|r| - 1] == ')'
  {
    "(" + Join(values, "|") + ")"
  }

  /** When no value holds "|", the alternatives between the parentheses are exactly the values. */
  lemma AlternationSplit(values: seq<string>)
    requires values != []
    requires forall v :: v in values ==> '|' !in v
    ensures var r := Alternation(values); Split(r[1..|r| - 1], '|') == values
  {
    var r := Alternation(values);
    assert r[1..|r| - 1] == Join(values, "|");
    SplitJoin(values, '|');
  }

  /** The alternation of normalised values is the empty group `()` exactly when there are no values. */
  lemma AlternationEmpty(values: seq<string>)
    requires forall v :: v in values ==> Contains(v, Dat)
    ensures Alternation(values) == "()" <==> values == []
  {
    if values != [] {
      JoinCons(values[0], values[1..], "|");
      assert values == [values[0]] + values[1..];
      assert values[0] in values && values[0] != [];
      assert |Join(values, "|")| >= |values[0]|;
    }
  }

  ghost predicate AllNormalised(values: seq<string>)
  {
    forall v :: v in values ==> Contains(v, Dat)
  }

  lemma NormalisedSnoc(values: seq<string>, v: string)
    requires AllNormalised(values) && Contains(v, Dat)
    ensures AllNormalised(values + [v])
  {
  }

  /** A list is appended one element at a time. */
  lemma AppendedSnoc(xs: seq<Scalar>, i: nat)
    requires i < |xs|
    ensures Appended(Many(xs[..i + 1])) == Appended(Many(xs[..i])) + [Normalise(ScalarText(xs[i]))]
  {
    var ys, zs := xs[..i + 1], xs[..i];
    assert ys == zs + [xs[i]];
    AppendedConcat(zs, xs[i]);
  }

  lemma AppendedConcat(zs: seq<Scalar>, x: Scalar)
    ensures Appended(Many(zs + [x])) == Appended(Many(zs)) + [Normalise(ScalarText(x))]
  {
    var a, b := Appended(Many(zs + [x])), Appended(Many(zs)) + [Normalise(ScalarText(x))];
    assert |a| == |b|;
    forall k | 0 <= k < |a|
      ensures a[k] == b[k]
    {
      if k < |zs| {
        assert (zs + [x])[k] == zs[k];
      }
    }
  }

  /** One token definition: a symbolic name and the part identifiers that denote it. */
  class Token {
    const token: string
    var values: seq<string>

    /** Every stored identifier has been normalised. */
    ghost predicate Valid()
      reads this
    {
      AllNormalised(values)
    }

    constructor (token: string)
      ensures this.token == token && values == [] && Valid()
    {
      this.token := token;
      values := [];
    }

    /** `append`: a list is appended element by element, a scalar as one element. */
    method Append(value: ConfigValue)
      requires Valid()
      modifies this
      ensures Valid()
      ensures values == old(values) + Appended(value)
    {
      match value {
        case One(x) =>
          values := values + [Normalise(ScalarText(x))];
        case Many(xs) =>
          var i := 0;
          assert xs[..0] == [];
          while i < |xs|
            invariant 0 <= i <= |xs|
            invariant values == old(values) + Appended(Many(xs[..i]))
            invariant Valid()
          {
            var v := Normalise(ScalarText(xs[i]));
            AppendedSnoc(xs, i);
            NormalisedSnoc(values, v);
            values := values + [v];
            i := i + 1;
          }
          assert xs[..i] == xs;
      }
    }

    /** `remove`: drops the first equal value; `found` is false where Python raises ValueError. */
    method Remove(value: string) returns (found: bool)
      requires Valid()
      modifies this
      ensures Valid()
      ensures found == (value in old(values))
      ensures values == RemoveFirst(old(values), value)
      ensures found ==> |values| == |old(values)| - 1
    {
      found := value in values;
      values := RemoveFirst(values, value);
    }

    /** `sort`: the same values in ascending string order. */
    method Sort()
      requires Valid()
      modifies this
      ensures Valid()
      ensures Sorted(values) && multiset(values) == multiset(old(values))
    {
      values := SortStrings(values);
      forall v | v in values
        ensures Contains(v, Dat)
      {
        assert v in multiset(values);
      }
    }

    /** `regex_list` over the stored values. */
    function RegexList(): (r: string)
      reads this
      ensures r == Alternation(values)
    {
      Alternation(values)
    }

    /** `__str__`: the name, a colon, and the values separated by ", ". */
    function ToString(): (r: string)
      reads this
      ensures StartsWith(r, token + ": ")
    {
      var r := token + ": " + Join(values, ", ");
      assert r[..|token + ": "|] == token + ": ";
      r
    }
  }

  /** Each value with a space in front: the pieces after the first in `", "`-joined text. */
  function Spaced(values: seq<string>): (r: seq<string>)
    ensures |r| == |values| && forall i :: 0 <= i < |values| ==> r[i] == " " + values[i]
  {
    if values == [] then [] else [" " + values[0]] + Spaced(values[1..])
  }

  /** Joining with ", " is joining with "," after putting a space in front of every value but the first. */
  lemma {:induction false} JoinCommaSpace(values: seq<string>)
    requires values != []
    ensures Join(values, ", ") == Join([values[0]] + Spaced(values[1..]), ",")
    decreases |values|
  {
    if |values| > 1 {
      var rest := values[1..];
      JoinCommaSpace(rest);
      assert Spaced(rest) == [" " + rest[0]] + Spaced(rest[1..]);
      calc {
        Join([values[0]] + Spaced(rest), ",");
        values[0] + "," + Join(Spaced(rest), ",");
        { JoinCons(" " + rest[0], Spaced(rest[1..]), ","); }
        values[0] + "," + (" " + Join([rest[0]] + Spaced(rest[1..]), ","));
        values[0] + ", " + Join(rest, ", ");
      }
    }
  }

  /**
   * `__str__` lists the values after the name and ": ": when no value holds
   * a comma, splitting the list at the commas gives back the values, each
   * but the first preceded by the space of the separator.
   */
  lemma ToStringPieces(t: Token)
    requires t.values != [] && forall v :: v in t.values ==> ',' !in v
    ensures var r := t.ToString(); var n := |t.token| + 2;
            n <= |r| && r[..n] == t.token + ": " &&
            Split(r[n..], ',') == [t.values[0]] + Spaced(t.values[1..])
  {
    var r := t.ToString();
    var n := |t.token| + 2;
    assert r[n..] == Join(t.values, ", ");
    JoinCommaSpace(t.values);
    var pieces := [t.values[0]] + Spaced(t.values[1..]);
    forall i | 0 <= i < |pieces|
      ensures ',' !in pieces[i]
    {
      if i > 0 {
        assert pieces[i] == " " + t.values[i];
        assert t.values[i] in t.values;
      }
    }
    SplitJoin(pieces, ',');
  }

  /** A stored token: its name and the values of its `Token`. */
  datatype Entry = Entry(name: string, values: seq<string>)

  /** One family of the global `tokens` dictionary, in insertion order. */
  type Family = seq<Entry>

  /** `family[name]`, or None where Python raises KeyError. */
  function Find(f: Family, name: string): Option<seq<string>>
  {
    if f == [] then None
    else if f[0].name == name then Some(f[0].values)
    else Find(f[1..], name)
  }

  /** The lookup succeeds exactly when some entry carries the name, and finds the first one. */
  lemma {:induction false} FindSome(f: Family, name: string)
    ensures Find(f, name).Some? <==> exists i :: 0 <= i < |f| && f[i].name == name
    ensures Find(f, name).Some? ==>
              exists i :: 0 <= i < |f| && f[i].name == name && Find(f, name).value == f[i].values &&
                forall j :: 0 <= j < i ==> f[j].name != name
    decreases |f|
  {
    if f != [] && f[0].name != name {
      FindSome(f[1..], name);
      if Find(f, name).Some? {
        var i :| 0 <= i < |f[1..]| && f[1..][i].name == name && Find(f, name).value == f[1..][i].values &&
                 forall j :: 0 <= j < i ==> f[1..][j].name != name;
        assert f[i + 1] == f[1..][i];
        forall j | 0 <= j < i + 1
          ensures f[j].name != name
        {
          if j > 0 {
            assert f[j] == f[1..][j - 1];
          }
        }
      }
      if exists i :: 0 <= i < |f| && f[i].name == name {
        var i :| 0 <= i < |f| && f[i].name == name;
        assert i > 0 && f[1..][i - 1] == f[i];
      }
    }
  }

  /**
   * `family[name] = values`: an existing key keeps its position and takes
   * the new values; a new key goes at the end.
   */
  function Put(f: Family, name: string, values: seq<string>): (r: Family)
    ensures Find(r, name) == Some(values)
    ensures forall n :: n != name ==> Find(r, n) == Find(f, n)
    ensures |r| == |f| + (if Find(f, name).None? then 1 else 0)
    ensures forall i :: 0 <= i < |f| ==> r[i].name == f[i].name
    ensures forall e :: e in r ==> e in f || e == Entry(name, values)
  {
    if f == [] then [Entry(name, values)]
    else if f[0].name == name then [Entry(name, values)] + f[1..]
    else [f[0]] + Put(f[1..], name, values)
  }

  /** How a family is written in the configuration. */
  datatype FamilyConfig =
    | AsList(names: seq<string>)                      // each element is both name and value
    | AsMap(entries: seq<(string, ConfigValue)>)      // name -> value(s); keys are distinct
    | AsScalar(scalar: Scalar)                        // not a collection

  /** The parsed configuration: top-level keys to families. */
  type Config = map<string, FamilyConfig>

  /** The global `tokens` dictionary: family name to family. */
  type Registry = map<string, Family>

  const FamilyNames: seq<string> := ["literals", "variables", "tokens"]

  const EmptyRegistry: Registry := map["literals" := [], "variables" := [], "tokens" := []]

  function FamilyOf(reg: Registry, fam: string): Family
  {
    if fam in reg then reg[fam] else []
  }

  /** The loop body of `load_tokens` for a list family, over the remaining names. */
  function FillList(f: Family, names: seq<string>): Family
    decreases |names|
  {
    if names == [] then f
    else FillList(Put(f, names[0], Appended(One(Text(names[0])))), names[1..])
  }

  /** The loop body of `load_tokens` for a mapping family, over the remaining entries. */
  function FillMap(f: Family, entries: seq<(string, ConfigValue)>): Family
    decreases |entries|
  {
    if entries == [] then f
    else FillMap(Put(f, entries[0].0, Appended(entries[0].1)), entries[1..])
  }

  /**
   * One family of `load_tokens`; None where iterating a scalar raises (an
   * empty string iterates zero times and changes nothing).
   */
  function FillFamily(f: Family, fc: FamilyConfig): Option<Family>
  {
    match fc
    case AsList(names) => Some(FillList(f, names))
    case AsMap(entries) => Some(FillMap(f, entries))
    case AsScalar(v) => if v == Text("") then Some(f) else None
  }

  /**
   * `load_tokens` from family `k` on: the registry it leaves behind and
   * whether it ran to the end.  A missing family (KeyError) or a scalar
   * family (TypeError) stops it, and the decorator swallows the exception,
   * so the families already filled stay filled.
   */
  function LoadFrom(reg: Registry, config: Config, k: nat): (Registry, bool)
    requires k <= |FamilyNames|
    decreases |FamilyNames| - k
  {
    if k == |FamilyNames| then (reg, true)
    else
      var fam := FamilyNames[k];
      if fam !in config then (reg, false)
      else match FillFamily(FamilyOf(reg, fam), config[fam])
        case None => (reg, false)
        case Some(f) => LoadFrom(reg[fam := f], config, k + 1)
  }

  function Load(config: Config): (Registry, bool)
  {
    LoadFrom(EmptyRegistry, config, 0)
  }

  lemma FillListStep(f: Family, names: seq<string>, j: nat)
    requires j < |names|
    ensures FillList(f, names[j..]) == FillList(Put(f, names[j], Appended(One(Text(names[j])))), names[j + 1..])
  {
    assert names[j..][0] == names[j] && names[j..][1..] == names[j + 1..];
  }

  lemma FillMapStep(f: Family, entries: seq<(string, ConfigValue)>, j: nat)
    requires j < |entries|
    ensures FillMap(f, entries[j..]) == FillMap(Put(f, entries[j].0, Appended(entries[j].1)), entries[j + 1..])
  {
    assert entries[j..][0] == entries[j] && entries[j..][1..] == entries[j + 1..];
  }

  /** The inner loop of `load_tokens` over a list family: a fresh `Token` per element. */
  method LoadList(f0: Family, names: seq<string>) returns (f: Family)
    ensures f == FillList(f0, names)
  {
    f := f0;
    var j := 0;
    while j < |names|
      invariant 0 <= j <= |names|
      invariant FillList(f, names[j..]) == FillList(f0, names)
    {
      var t := new Token(names[j]);
      t.Append(One(Text(names[j])));
      assert t.values == Appended(One(Text(names[j])));
      FillListStep(f, names, j);
      f := Put(f, names[j], t.values);
      j := j + 1;
    }
  }

  /** The inner loop of `load_tokens` over a mapping family: a fresh `Token` per key. */
  method LoadMap(f0: Family, entries: seq<(string, ConfigValue)>) returns (f: Family)
    ensures f == FillMap(f0, entries)
  {
    f := f0;
    var j := 0;
    while j < |entries|
      invariant 0 <= j <= |entries|
      invariant FillMap(f, entries[j..]) == FillMap(f0, entries)
    {
      var t := new Token(entries[j].0);
      t.Append(entries[j].1);
      assert t.values == Appended(entries[j].1);
      FillMapStep(f, entries, j);
      f := Put(f, entries[j].0, t.values);
      j := j + 1;
    }
  }

  /** `load_tokens` on an already parsed configuration. */
  method LoadTokens(config: Config) returns (reg: Registry, completed: bool)
    ensures (reg, completed) == Load(config)
  {
    reg := EmptyRegistry;
    var k := 0;
    while k < |FamilyNames|
      invariant 0 <= k <= |FamilyNames|
      invariant LoadFrom(reg, config, k) == Load(config)
    {
      var fam := FamilyNames[k];
      if fam !in config {
        return reg, false;
      }
      var f;
      match config[fam] {
        case AsList(names) =>
          f := LoadList(FamilyOf(reg, fam), names);
        case AsMap(entries) =>
          f := LoadMap(FamilyOf(reg, fam), entries);
        case AsScalar(v) =>
          if v != Text("") {
            return reg, false;
          }
          f := FamilyOf(reg, fam);
      }
      reg := reg[fam := f];
      k := k + 1;
    }
    completed := true;
  }

  /** A family is iterable: a list, a mapping, or (iterating zero times) the empty string. */
  predicate Iterable(fc: FamilyConfig)
  {
    !fc.AsScalar? || fc.scalar == Text("")
  }

  lemma {:induction false} LoadFromCompletes(reg: Registry, config: Config, k: nat)
    requires k <= |FamilyNames|
    ensures LoadFrom(reg, config, k).1 <==>
              forall m :: k <= m < |FamilyNames| ==> FamilyNames[m] in config && Iterable(config[FamilyNames[m]])
    decreases |FamilyNames| - k
  {
    if k < |FamilyNames| {
      var fam := FamilyNames[k];
      if fam in config && Iterable(config[fam]) {
        var f := FillFamily(FamilyOf(reg, fam), config[fam]);
        LoadFromCompletes(reg[fam := f.value], config, k + 1);
      }
    }
  }

  /** `load_tokens` runs to the end exactly when all three families are present and iterable. */
  lemma LoadCompletes(config: Config)
    ensures Load(config).1 <==>
              forall fam :: fam in FamilyNames ==> fam in config && Iterable(config[fam])
  {
    LoadFromCompletes(EmptyRegistry, config, 0);
  }

  /** Every part identifier in a family holds ".dat". */
  predicate NormalisedFamily(f: Family)
  {
    forall e, v :: e in f && v in e.values ==> Contains(v, Dat)
  }

  predicate Normalised(reg: Registry)
  {
    forall fam :: fam in reg ==> NormalisedFamily(reg[fam])
  }

  lemma {:induction false} FillListNormalised(f: Family, names: seq<string>)
    requires NormalisedFamily(f)
    ensures NormalisedFamily(FillList(f, names))
    decreases |names|
  {
    if names != [] {
      FillListNormalised(Put(f, names[0], Appended(One(Text(names[0])))), names[1..]);
    }
  }

  lemma {:induction false} FillMapNormalised(f: Family, entries: seq<(string, ConfigValue)>)
    requires NormalisedFamily(f)
    ensures NormalisedFamily(FillMap(f, entries))
    decreases |entries|
  {
    if entries != [] {
      FillMapNormalised(Put(f, entries[0].0, Appended(entries[0].1)), entries[1..]);
    }
  }

  lemma {:induction false} LoadFromNormalised(reg: Registry, config: Config, k: nat)
    requires k <= |FamilyNames| && Normalised(reg)
    ensures Normalised(LoadFrom(reg, config, k).0)
    decreases |FamilyNames| - k
  {
    if k < |FamilyNames| {
      var fam := FamilyNames[k];
      if fam in config {
        match config[fam]
        case AsList(names) =>
          FillListNormalised(FamilyOf(reg, fam), names);
          LoadFromNormalised(reg[fam := FillList(FamilyOf(reg, fam), names)], config, k + 1);
        case AsMap(entries) =>
          FillMapNormalised(FamilyOf(reg, fam), entries);
          LoadFromNormalised(reg[fam := FillMap(FamilyOf(reg, fam), entries)], config, k + 1);
        case AsScalar(v) =>
          if v == Text("") {
            LoadFromNormalised(reg[fam := FamilyOf(reg, fam)], config, k + 1);
          }
      }
    }
  }

  /** Whatever the configuration, every loaded part identifier holds ".dat". */
  lemma LoadNormalised(config: Config)
    ensures Normalised(Load(config).0)
  {
    LoadFromNormalised(EmptyRegistry, config, 0);
  }

  /** After a list is loaded, each element names a token whose only value is its normalised self. */
  lemma {:induction false} FillListFind(f: Family, names: seq<string>, n: string)
    ensures Find(FillList(f, names), n) == if n in names then Some([Normalise(n)]) else Find(f, n)
    decreases |names|
  {
    if names != [] {
      var x, rest := names[0], names[1..];
      var f1 := Put(f, x, [Normalise(x)]);
      assert FillList(f, names) == FillList(f1, rest) by {
        assert Appended(One(Text(x))) == [Normalise(x)];
      }
      FillListFind(f1, rest, n);
      assert n in names <==> n == x || n in rest by {
        assert names == [x] + rest;
      }
    }
  }

  predicate DistinctKeys(entries: seq<(string, ConfigValue)>)
  {
    forall i, j :: 0 <= i < j < |entries| ==> entries[i].0 != entries[j].0
  }

  lemma {:induction false} FillMapOther(f: Family, entries: seq<(string, ConfigValue)>, n: string)
    requires forall i :: 0 <= i < |entries| ==> entries[i].0 != n
    ensures Find(FillMap(f, entries), n) == Find(f, n)
    decreases |entries|
  {
    if entries != [] {
      FillMapOther(Put(f, entries[0].0, Appended(entries[0].1)), entries[1..], n);
    }
  }

  /** After a mapping is loaded, each key names a token holding its value(s), normalised, in order. */
  lemma {:induction false} FillMapFind(f: Family, entries: seq<(string, ConfigValue)>, i: nat)
    requires DistinctKeys(entries) && i < |entries|
    ensures Find(FillMap(f, entries), entries[i].0) == Some(Appended(entries[i].1))
    decreases |entries|
  {
    var g := Put(f, entries[0].0, Appended(entries[0].1));
    var rest := entries[1..];
    assert FillMap(f, entries) == FillMap(g, rest);
    if i == 0 {
      forall k | 0 <= k < |rest|
        ensures rest[k].0 != entries[0].0
      {
        assert rest[k] == entries[k + 1];
      }
      FillMapOther(g, rest, entries[0].0);
    } else {
      assert DistinctKeys(rest) by {
        forall a, b | 0 <= a < b < |rest|
          ensures rest[a].0 != rest[b].0
        {
          assert rest[a] == entries[a + 1] && rest[b] == entries[b + 1];
        }
      }
      FillMapFind(g, rest, i - 1);
      assert rest[i - 1] == entries[i];
    }
  }

  /** A completed load filled each family from its own configuration, starting from empty. */
  lemma {:induction false} LoadFromFamilies(reg: Registry, config: Config, k: nat, m: nat)
    requires k <= m < |FamilyNames| && LoadFrom(reg, config, k).1
    ensures FamilyNames[m] in config
    ensures FillFamily(FamilyOf(reg, FamilyNames[m]), config[FamilyNames[m]]) ==
              Some(FamilyOf(LoadFrom(reg, config, k).0, FamilyNames[m]))
    decreases |FamilyNames| - k
  {
    var fam := FamilyNames[k];
    var f := FillFamily(FamilyOf(reg, fam), config[fam]).value;
    if k < m {
      LoadFromFamilies(reg[fam := f], config, k + 1, m);
      assert FamilyNames[m] != fam;
    } else {
      LoadFromUnchanged(reg[fam := f], config, k + 1, fam);
    }
  }

  /** Families before `k` are not touched from `k` on. */
  lemma {:induction false} LoadFromUnchanged(reg: Registry, config: Config, k: nat, fam: string)
    requires k <= |FamilyNames|
    requires forall m :: k <= m < |FamilyNames| ==> FamilyNames[m] != fam
    ensures FamilyOf(LoadFrom(reg, config, k).0, fam) == FamilyOf(reg, fam)
    decreases |FamilyNames| - k
  {
    if k < |FamilyNames| {
      var name := FamilyNames[k];
      if name in config {
        var f := FillFamily(FamilyOf(reg, name), config[name]);
        if f.Some? {
          LoadFromUnchanged(reg[name := f.value], config, k + 1, fam);
        }
      }
    }
  }

  /**
   * A completed load of a list family stores, under each element, the
   * element normalised; of a mapping family, under each key, its value(s)
   * normalised and in order.
   */
  lemma LoadedEntries(config: Config, fam: string)
    requires Load(config).1 && fam in FamilyNames
    ensures fam in config && fam in Load(config).0
    ensures config[fam].AsList? ==> forall n :: n in config[fam].names ==>
              Find(Load(config).0[fam], n) == Some([Normalise(n)])
    ensures config[fam].AsMap? && DistinctKeys(config[fam].entries) ==>
              forall i :: 0 <= i < |config[fam].entries| ==>
                Find(Load(config).0[fam], config[fam].entries[i].0) == Some(Appended(config[fam].entries[i].1))
  {
    var m :| 0 <= m < |FamilyNames| && FamilyNames[m] == fam;
    LoadFromFamilies(EmptyRegistry, config, 0, m);
    LoadFromKeys(EmptyRegistry, config, 0);
    var loaded := Load(config).0;
    assert FamilyOf(EmptyRegistry, fam) == [];
    if config[fam].AsList? {
      forall n | n in config[fam].names
        ensures Find(loaded[fam], n) == Some([Normalise(n)])
      {
        FillListFind([], config[fam].names, n);
      }
    }
    if config[fam].AsMap? && DistinctKeys(config[fam].entries) {
      forall i | 0 <= i < |config[fam].entries|
        ensures Find(loaded[fam], config[fam].entries[i].0) == Some(Appended(config[fam].entries[i].1))
      {
        FillMapFind([], config[fam].entries, i);
      }
    }
  }

  /** The registry keeps its three families. */
  lemma {:induction false} LoadFromKeys(reg: Registry, config: Config, k: nat)
    requires k <= |FamilyNames|
    requires forall fam :: fam in FamilyNames ==> fam in reg
    ensures forall fam :: fam in FamilyNames ==> fam in LoadFrom(reg, config, k).0
    decreases |FamilyNames| - k
  {
    if k < |FamilyNames| {
      var name := FamilyNames[k];
      if name in config {
        var f := FillFamily(FamilyOf(reg, name), config[name]);
        if f.Some? {
          LoadFromKeys(reg[name := f.value], config, k + 1);
        }
      }
    }
  }

  /** The configuration of a family defines token `name` with `values`. */
  predicate Defines(fc: FamilyConfig, name: string, values: seq<string>)
  {
    (fc.AsList? && name in fc.names && values == [Normalise(name)]) ||
    (fc.AsMap? && DistinctKeys(fc.entries) &&
     exists i :: 0 <= i < |fc.entries| && fc.entries[i].0 == name && values == Appended(fc.entries[i].1))
  }

  /** The values a configuration defines for a token are normalised. */
  lemma DefinesNormalised(fc: FamilyConfig, name: string, values: seq<string>)
    requires Defines(fc, name, values)
    ensures forall v :: v in values ==> Contains(v, Dat)
  {
    if !fc.AsList? {
      var i :| 0 <= i < |fc.entries| && fc.entries[i].0 == name && values == Appended(fc.entries[i].1);
    }
  }

  /** A family missing from the configuration is never filled, whether or not the load completes. */
  lemma {:induction false} LoadFromMissing(reg: Registry, config: Config, k: nat, fam: string)
    requires k <= |FamilyNames| && fam !in config
    ensures FamilyOf(LoadFrom(reg, config, k).0, fam) == FamilyOf(reg, fam)
    decreases |FamilyNames| - k
  {
    if k < |FamilyNames| {
      var name := FamilyNames[k];
      if name in config {
        var f := FillFamily(FamilyOf(reg, name), config[name]);
        if f.Some? {
          LoadFromMissing(reg[name := f.value], config, k + 1, fam);
        }
      }
    }
  }

  /** After a completed load, looking up a defined token gives its normalised values. */
  lemma LoadedFind(config: Config, fam: string, name: string, values: seq<string>)
    requires Load(config).1 && fam in FamilyNames && fam in config
    requires Defines(config[fam], name, values)
    ensures fam in Load(config).0 && Find(Load(config).0[fam], name) == Some(values)
  {
    LoadedEntries(config, fam);
    if !config[fam].AsList? {
      var i :| 0 <= i < |config[fam].entries| && config[fam].entries[i].0 == name &&
               values == Appended(config[fam].entries[i].1);
    }
  }
}
