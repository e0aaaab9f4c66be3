/** Proposing missing property values from project standards, and grouping the proposals into a diff. */
module PropertyFill {
  import opened Basics
  import opened Ordering

  datatype Value =
    | TextValue(text: Text)
    | LabelValue(text: Text)
    | BooleanValue(b: bool)
    | LogicalValue(state: Option<bool>)
    | IntegerValue(i: int)
    | MeasureValue(kind: Measure, amount: real)
    | OtherValue(measure: Text, raw: Text)

  datatype Measure = Plain | Length | Area | Volume | Ratio

  type Properties = map<Text, Value>

  /** Pset to key to value. */
  type Psets = map<Text, Properties>

  datatype Element = Element(entity: Text, cls: nat, known: Psets)

  datatype Rule = Rule(cls: nat, conditions: Properties, defaults: Psets)

  /** The canonical property set of a class and the keys it requires. */
  datatype Catalogue = Catalogue(psetName: nat -> Option<Text>, requiredKeys: nat -> seq<Text>)

  /** Confidences are whole hundredths. */
  datatype Config = Config(minConfidence: int, maxConfidence: int)

  const DefaultConfig := Config(80, 97)

  datatype Proposal = Proposal(entity: Text, pset: Text, key: Text, value: Value, confidence: int)

  // ----- Which rule supplies a key -----

  predicate Holds(known: Psets, key: Text, value: Value) {
    exists pset :: pset in known && key in known[pset] && known[pset][key] == value
  }

  predicate Applies(rule: Rule, element: Element) {
    rule.cls == element.cls && forall key :: key in rule.conditions ==> Holds(element.known, key, rule.conditions[key])
  }

  predicate Has(psets: Psets, pset: Text, key: Text) {
    pset in psets && key in psets[pset]
  }

  predicate Supplies(rule: Rule, element: Element, pset: Text, key: Text) {
    Applies(rule, element) && Has(rule.defaults, pset, key)
  }

  function Confidence(rule: Rule, config: Config): int {
    var raw := 80 + 5 * |rule.conditions|;
    if raw < config.maxConfidence then raw else config.maxConfidence
  }

  /** Rule `i` supplies the key, no rule with more confidence does, and no earlier one with as much. */
  ghost predicate IsBest(rules: seq<Rule>, element: Element, pset: Text, key: Text, config: Config, i: int) {
    && 0 <= i < |rules| && Supplies(rules[i], element, pset, key)
    && forall j :: 0 <= j < |rules| && Supplies(rules[j], element, pset, key) ==>
         && Confidence(rules[j], config) <= Confidence(rules[i], config)
         && (j < i ==> Confidence(rules[j], config) < Confidence(rules[i], config))
  }

  ghost predicate IsProposal(rules: seq<Rule>, element: Element, pset: Text, key: Text, config: Config, p: Proposal) {
    && !Has(element.known, pset, key)
    && exists i :: IsBest(rules, element, pset, key, config, i)
         && config.minConfidence <= Confidence(rules[i], config)
         && p == Proposal(element.entity, pset, key, rules[i].defaults[pset][key], Confidence(rules[i], config))
  }

  lemma OneProposal(rules: seq<Rule>, element: Element, pset: Text, key: Text, config: Config, p: Proposal, q: Proposal)
    requires IsProposal(rules, element, pset, key, config, p) && IsProposal(rules, element, pset, key, config, q)
    ensures p == q
  {
    var i :| IsBest(rules, element, pset, key, config, i) && p.value == rules[i].defaults[pset][key] && p.confidence == Confidence(rules[i], config);
    var j :| IsBest(rules, element, pset, key, config, j) && q.value == rules[j].defaults[pset][key] && q.confidence == Confidence(rules[j], config);
    assert i == j;
  }

  lemma NoProposalBelow(rules: seq<Rule>, element: Element, pset: Text, key: Text, config: Config, i: int)
    requires IsBest(rules, element, pset, key, config, i) && Confidence(rules[i], config) < config.minConfidence
    ensures forall p :: !IsProposal(rules, element, pset, key, config, p)
  {
    forall j | IsBest(rules, element, pset, key, config, j) ensures j == i { }
  }

  lemma NoProposalWithoutSupply(rules: seq<Rule>, element: Element, pset: Text, key: Text, config: Config)
    requires forall i :: 0 <= i < |rules| ==> !Supplies(rules[i], element, pset, key)
    ensures forall p :: !IsProposal(rules, element, pset, key, config, p)
  { }

  // ----- The loops -----

  method RuleMatches(rule: Rule, element: Element) returns (r: bool)
    ensures r <==> forall key :: key in rule.conditions ==> Holds(element.known, key, rule.conditions[key])
  {
    var rest := rule.conditions.Keys;
    while rest != {}
      invariant rest <= rule.conditions.Keys
      invariant forall key :: key in rule.conditions && key !in rest ==> Holds(element.known, key, rule.conditions[key])
      decreases rest
    {
      var key :| key in rest;
      var hit, psets := false, element.known.Keys;
      while psets != {} && !hit
        invariant psets <= element.known.Keys
        invariant hit ==> Holds(element.known, key, rule.conditions[key])
        invariant !hit ==> forall pset :: pset in element.known && pset !in psets ==>
                             !(key in element.known[pset] && element.known[pset][key] == rule.conditions[key])
        decreases psets
      {
        var pset :| pset in psets;
        if key in element.known[pset] && element.known[pset][key] == rule.conditions[key] {
          hit := true;
        }
        psets := psets - {pset};
      }
      if !hit {
        return false;
      }
      rest := rest - {key};
    }
    return true;
  }

  method Matching(rules: seq<Rule>, element: Element) returns (indices: seq<nat>)
    ensures forall k :: 0 <= k < |indices| ==> indices[k] < |rules|
    ensures forall k, l :: 0 <= k < l < |indices| ==> indices[k] < indices[l]
    ensures forall i :: 0 <= i < |rules| ==> (i in indices <==> Applies(rules[i], element))
  {
    indices := [];
    for n := 0 to |rules|
      invariant forall k :: 0 <= k < |indices| ==> indices[k] < n
      invariant forall k, l :: 0 <= k < l < |indices| ==> indices[k] < indices[l]
      invariant forall i :: 0 <= i < n ==> (i in indices <==> Applies(rules[i], element))
    {
      if rules[n].cls == element.cls {
        var matches := RuleMatches(rules[n], element);
        if matches {
          indices := indices + [n];
        }
      }
    }
  }

  /** The strict comparison keeps the earliest of equally confident rules. */
  method FindBest(rules: seq<Rule>, matching: seq<nat>, element: Element, pset: Text, key: Text, config: Config)
    returns (best: Option<(int, Value)>)
    requires forall k :: 0 <= k < |matching| ==> matching[k] < |rules|
    requires forall k, l :: 0 <= k < l < |matching| ==> matching[k] < matching[l]
    requires forall i :: 0 <= i < |rules| ==> (i in matching <==> Applies(rules[i], element))
    ensures best.None? ==> forall i :: 0 <= i < |rules| ==> !Supplies(rules[i], element, pset, key)
    ensures best.Some? ==> exists i :: IsBest(rules, element, pset, key, config, i)
                             && best.value == (Confidence(rules[i], config), rules[i].defaults[pset][key])
  {
    hide Applies, Confidence;
    best := None;
    ghost var at := 0;
    for n := 0 to |matching|
      invariant best.None? ==> forall k :: 0 <= k < n ==> !Has(rules[matching[k]].defaults, pset, key)
      invariant best.Some? ==>
        && 0 <= at < n && Has(rules[matching[at]].defaults, pset, key)
        && best.value == (Confidence(rules[matching[at]], config), rules[matching[at]].defaults[pset][key])
        && forall k :: 0 <= k < n && Has(rules[matching[k]].defaults, pset, key) ==>
             && Confidence(rules[matching[k]], config) <= best.value.0
             && (k < at ==> Confidence(rules[matching[k]], config) < best.value.0)
    {
      var rule := rules[matching[n]];
      if pset in rule.defaults && key in rule.defaults[pset] {
        var conf := Confidence(rule, config);
        if best.None? || conf > best.value.0 {
          best := Some((conf, rule.defaults[pset][key]));
          at := n;
        }
      }
    }
    forall j | 0 <= j < |rules| && Supplies(rules[j], element, pset, key)
      ensures exists k :: 0 <= k < |matching| && matching[k] == j && Has(rules[matching[k]].defaults, pset, key)
    {
      assert j in matching;
    }
    if best.Some? {
      assert matching[at] in matching;
      assert IsBest(rules, element, pset, key, config, matching[at]);
    }
  }

  // ----- The proposals -----

  ghost function Chosen(rules: seq<Rule>, element: Element, pset: Text, key: Text, config: Config): (r: Option<Proposal>)
    ensures r.Some? ==> IsProposal(rules, element, pset, key, config, r.value)
    ensures r.None? ==> forall p :: !IsProposal(rules, element, pset, key, config, p)
  {
    if p :| IsProposal(rules, element, pset, key, config, p) then Some(p) else None
  }

  function Listed(p: Option<Proposal>): seq<Proposal> {
    if p.Some? then [p.value] else []
  }

  ghost function ForKeys(rules: seq<Rule>, element: Element, pset: Text, keys: seq<Text>, config: Config): seq<Proposal> {
    if keys == [] then [] else
      ForKeys(rules, element, pset, keys[..|keys| - 1], config) + Listed(Chosen(rules, element, pset, keys[|keys| - 1], config))
  }

  ghost function ForElement(rules: seq<Rule>, element: Element, catalogue: Catalogue, config: Config): seq<Proposal> {
    var name := catalogue.psetName(element.cls);
    if name.None? then [] else ForKeys(rules, element, name.value, catalogue.requiredKeys(element.cls), config)
  }

  ghost function ForElements(rules: seq<Rule>, elements: seq<Element>, catalogue: Catalogue, config: Config): seq<Proposal> {
    if elements == [] then [] else
      ForElements(rules, elements[..|elements| - 1], catalogue, config) + ForElement(rules, elements[|elements| - 1], catalogue, config)
  }

  method Propose(rules: seq<Rule>, matching: seq<nat>, element: Element, pset: Text, key: Text, config: Config)
    returns (r: Option<Proposal>)
    requires forall k :: 0 <= k < |matching| ==> matching[k] < |rules|
    requires forall k, l :: 0 <= k < l < |matching| ==> matching[k] < matching[l]
    requires forall i :: 0 <= i < |rules| ==> (i in matching <==> Applies(rules[i], element))
    ensures r == Chosen(rules, element, pset, key, config)
  {
    hide Applies, Confidence;
    ghost var chosen := Chosen(rules, element, pset, key, config);
    if pset in element.known && key in element.known[pset] {
      return None;
    }
    var best := FindBest(rules, matching, element, pset, key, config);
    if best.None? {
      NoProposalWithoutSupply(rules, element, pset, key, config);
      return None;
    }
    var (conf, value) := best.value;
    ghost var i :| IsBest(rules, element, pset, key, config, i)
                   && (conf, value) == (Confidence(rules[i], config), rules[i].defaults[pset][key]);
    if conf < config.minConfidence {
      NoProposalBelow(rules, element, pset, key, config, i);
      return None;
    }
    var p := Proposal(element.entity, pset, key, value, conf);
    assert IsProposal(rules, element, pset, key, config, p);
    OneProposal(rules, element, pset, key, config, p, chosen.value);
    return Some(p);
  }

  method FillKeys(rules: seq<Rule>, element: Element, pset: Text, keys: seq<Text>, config: Config, before: seq<Proposal>)
    returns (out: seq<Proposal>)
    ensures out == before + ForKeys(rules, element, pset, keys, config)
  {
    hide Applies, IsProposal;
    out := before;
    var matching := Matching(rules, element);
    for n := 0 to |keys|
      invariant out == before + ForKeys(rules, element, pset, keys[..n], config)
    {
      assert keys[..n + 1][..n] == keys[..n];
      var p := Propose(rules, matching, element, pset, keys[n], config);
      if p.Some? {
        out := out + [p.value];
      }
    }
    assert keys[..|keys|] == keys;
  }

  method FillProperties(elements: seq<Element>, rules: seq<Rule>, catalogue: Catalogue, config: Config)
    returns (out: seq<Proposal>)
    ensures out == ForElements(rules, elements, catalogue, config)
  {
    out := [];
    for n := 0 to |elements|
      invariant out == ForElements(rules, elements[..n], catalogue, config)
    {
      var element := elements[n];
      assert elements[..n + 1][..n] == elements[..n];
      var name := catalogue.psetName(element.cls);
      if name.None? {
        continue;
      }
      var required := catalogue.requiredKeys(element.cls);
      if required == [] {
        continue;
      }
      out := FillKeys(rules, element, name.value, required, config, out);
    }
    assert elements[..|elements|] == elements;
  }

  /** Exactly the chosen proposals of the required keys, one each when the keys are distinct. */
  lemma {:induction false} KeysOnce(rules: seq<Rule>, element: Element, pset: Text, keys: seq<Text>, config: Config)
    ensures var r := ForKeys(rules, element, pset, keys, config);
            && (forall p :: p in r <==> p.key in keys && IsProposal(rules, element, pset, p.key, config, p))
            && (Distinct(keys) ==> forall i, j :: 0 <= i < j < |r| ==> r[i].key != r[j].key)
  {
    hide IsBest;
    if keys != [] {
      var n := |keys| - 1;
      var init, key := keys[..n], keys[n];
      KeysOnce(rules, element, pset, init, config);
      assert keys == init + [key];
      var chosen := Chosen(rules, element, pset, key, config);
      forall p ensures p in Listed(chosen) <==> p.key == key && IsProposal(rules, element, pset, p.key, config, p) {
        if p.key == key && IsProposal(rules, element, pset, key, config, p) {
          OneProposal(rules, element, pset, key, config, p, chosen.value);
        }
      }
    }
  }

  ghost predicate DistinctEntities(elements: seq<Element>) {
    forall i, j :: 0 <= i < j < |elements| ==> elements[i].entity != elements[j].entity
  }

  ghost predicate ProposedFor(rules: seq<Rule>, e: Element, catalogue: Catalogue, config: Config, p: Proposal) {
    && catalogue.psetName(e.cls) == Some(p.pset) && p.key in catalogue.requiredKeys(e.cls)
    && IsProposal(rules, e, p.pset, p.key, config, p)
  }

  lemma ProposedForItself(rules: seq<Rule>, e: Element, catalogue: Catalogue, config: Config, p: Proposal)
    requires ProposedFor(rules, e, catalogue, config, p)
    ensures p.entity == e.entity && config.minConfidence <= p.confidence <= config.maxConfidence
  { }

  lemma ElementOnce(rules: seq<Rule>, e: Element, catalogue: Catalogue, config: Config)
    requires Distinct(catalogue.requiredKeys(e.cls))
    ensures var r := ForElement(rules, e, catalogue, config);
            forall i, j :: 0 <= i < j < |r| ==> r[i].key != r[j].key
  {
    hide IsProposal;
    var name := catalogue.psetName(e.cls);
    if name.Some? {
      KeysOnce(rules, e, name.value, catalogue.requiredKeys(e.cls), config);
    }
  }

  lemma ElementExact(rules: seq<Rule>, e: Element, catalogue: Catalogue, config: Config)
    ensures forall p :: p in ForElement(rules, e, catalogue, config) <==> ProposedFor(rules, e, catalogue, config, p)
  {
    hide IsBest;
    var name := catalogue.psetName(e.cls);
    if name.Some? {
      KeysOnce(rules, e, name.value, catalogue.requiredKeys(e.cls), config);
      assert forall p :: p in ForElement(rules, e, catalogue, config) ==> p.pset == name.value;
    }
  }

  /** The proposals are exactly the best values for the unknown required keys of the elements. */
  lemma {:induction false} ProposalsExact(rules: seq<Rule>, elements: seq<Element>, catalogue: Catalogue, config: Config)
    ensures forall p :: p in ForElements(rules, elements, catalogue, config)
                   <==> exists e :: e in elements && ProposedFor(rules, e, catalogue, config, p)
  {
    hide ProposedFor, ForElement;
    if elements != [] {
      var n := |elements| - 1;
      ProposalsExact(rules, elements[..n], catalogue, config);
      ElementExact(rules, elements[n], catalogue, config);
      assert elements == elements[..n] + [elements[n]];
    }
  }

  ghost predicate SlotsDiffer(r: seq<Proposal>) {
    forall i, j :: 0 <= i < j < |r| ==> r[i].entity != r[j].entity || r[i].key != r[j].key
  }

  /** No element's key is proposed twice. */
  lemma {:induction false} SlotsOnce(rules: seq<Rule>, elements: seq<Element>, catalogue: Catalogue, config: Config)
    requires DistinctEntities(elements) && forall c :: Distinct(catalogue.requiredKeys(c))
    ensures SlotsDiffer(ForElements(rules, elements, catalogue, config))
  {
    hide ProposedFor, ForElement;
    if elements != [] {
      var n := |elements| - 1;
      var init, e := elements[..n], elements[n];
      SlotsOnce(rules, init, catalogue, config);
      ProposalsExact(rules, init, catalogue, config);
      ElementExact(rules, e, catalogue, config);
      ElementOnce(rules, e, catalogue, config);
      var r0, last := ForElements(rules, init, catalogue, config), ForElement(rules, e, catalogue, config);
      forall i, j | 0 <= i < |r0| && 0 <= j < |last| ensures r0[i].entity != last[j].entity {
        assert r0[i] in r0 && last[j] in last;
        var e0 :| e0 in init && ProposedFor(rules, e0, catalogue, config, r0[i]);
        ProposedForItself(rules, e0, catalogue, config, r0[i]);
        ProposedForItself(rules, e, catalogue, config, last[j]);
      }
      var r := r0 + last;
      forall i, j | 0 <= i < j < |r| ensures r[i].entity != r[j].entity || r[i].key != r[j].key {
        assert j < |r0| || |r0| <= i || i < |r0| <= j;
      }
    }
  }

  // ----- Confidence -----

  /** An unknown key that some rule supplies gets a proposal exactly when the best confidence reaches the minimum. */
  lemma SuppliedIsProposed(rules: seq<Rule>, element: Element, pset: Text, key: Text, config: Config)
    requires !Has(element.known, pset, key)
    ensures (exists p :: IsProposal(rules, element, pset, key, config, p))
       <==> exists i :: 0 <= i < |rules| && Supplies(rules[i], element, pset, key) && config.minConfidence <= Confidence(rules[i], config)
  {
    if i :| 0 <= i < |rules| && Supplies(rules[i], element, pset, key) && config.minConfidence <= Confidence(rules[i], config) {
      var b := BestExists(rules, element, pset, key, config, i);
      assert IsProposal(rules, element, pset, key, config,
                        Proposal(element.entity, pset, key, rules[b].defaults[pset][key], Confidence(rules[b], config)));
    }
  }

  lemma {:induction false} BestExists(rules: seq<Rule>, element: Element, pset: Text, key: Text, config: Config, i: int) returns (b: int)
    requires 0 <= i < |rules| && Supplies(rules[i], element, pset, key)
    ensures IsBest(rules, element, pset, key, config, b) && Confidence(rules[i], config) <= Confidence(rules[b], config)
  {
    hide Supplies, Confidence;
    var n := |rules| - 1;
    var init := rules[..n];
    if j :| 0 <= j < n && Supplies(init[j], element, pset, key) {
      b := BestExists(init, element, pset, key, config, if i < n then i else j);
      if Supplies(rules[n], element, pset, key) && Confidence(rules[n], config) > Confidence(rules[b], config) {
        b := n;
      }
      assert forall k :: 0 <= k < n ==> rules[k] == init[k];
    } else {
      b := n;
      assert forall k :: 0 <= k < n ==> rules[k] == init[k];
    }
  }

  /** Under the default configuration, rules with different numbers of conditions tie exactly from four on. */
  lemma TiesFromFour(a: Rule, b: Rule)
    requires |a.conditions| != |b.conditions|
    ensures Confidence(a, DefaultConfig) == Confidence(b, DefaultConfig) <==> |a.conditions| >= 4 && |b.conditions| >= 4
  { }

  ghost predicate SuppliesAt(rules: seq<Rule>, element: Element, pset: Text, key: Text, i: int) {
    0 <= i < |rules| && Supplies(rules[i], element, pset, key)
  }

  /** The first supplier with the four conditions that reach the default cap. */
  ghost predicate FirstAtCap(rules: seq<Rule>, element: Element, pset: Text, key: Text, f: int) {
    && SuppliesAt(rules, element, pset, key, f) && |rules[f].conditions| >= 4
    && forall j :: SuppliesAt(rules, element, pset, key, j) && j < f ==> |rules[j].conditions| < 4
  }

  ghost predicate MostSpecific(rules: seq<Rule>, element: Element, pset: Text, key: Text, i: int) {
    && SuppliesAt(rules, element, pset, key, i)
    && forall j :: SuppliesAt(rules, element, pset, key, j) ==> |rules[j].conditions| <= |rules[i].conditions|
  }

  lemma BestIsFirstAtCap(rules: seq<Rule>, element: Element, pset: Text, key: Text, i: int, f: int)
    requires IsBest(rules, element, pset, key, DefaultConfig, i) && FirstAtCap(rules, element, pset, key, f)
    ensures i == f
  {
    assert Confidence(rules[f], DefaultConfig) <= Confidence(rules[i], DefaultConfig);
    assert SuppliesAt(rules, element, pset, key, i);
  }

  lemma {:induction false} SomeFirstAtCap(rules: seq<Rule>, element: Element, pset: Text, key: Text, i: int) returns (f: int)
    requires SuppliesAt(rules, element, pset, key, i) && |rules[i].conditions| >= 4
    ensures FirstAtCap(rules, element, pset, key, f)
    decreases i
  {
    hide Supplies;
    f := i;
    if j :| SuppliesAt(rules, element, pset, key, j) && j < i && |rules[j].conditions| >= 4 {
      f := SomeFirstAtCap(rules, element, pset, key, j);
    }
  }

  /**
   Under the default configuration the chosen rule is a most specific one exactly when no
   supplier reaches the cap, or the first one that does has the most conditions of all.
   */
  lemma BestIsMostSpecificIff(rules: seq<Rule>, element: Element, pset: Text, key: Text, i: int)
    requires IsBest(rules, element, pset, key, DefaultConfig, i)
    ensures MostSpecific(rules, element, pset, key, i)
       <==> forall f :: FirstAtCap(rules, element, pset, key, f) ==> MostSpecific(rules, element, pset, key, f)
  {
    hide Supplies;
    assert SuppliesAt(rules, element, pset, key, i);
    if f :| FirstAtCap(rules, element, pset, key, f) {
      BestIsFirstAtCap(rules, element, pset, key, i, f);
      forall g | FirstAtCap(rules, element, pset, key, g) ensures g == i {
        BestIsFirstAtCap(rules, element, pset, key, i, g);
      }
    } else {
      forall j | SuppliesAt(rules, element, pset, key, j) ensures |rules[j].conditions| <= |rules[i].conditions| {
        if |rules[j].conditions| >= 4 {
          var f := SomeFirstAtCap(rules, element, pset, key, j);
          assert false;
        }
        assert Confidence(rules[j], DefaultConfig) <= Confidence(rules[i], DefaultConfig);
      }
    }
  }

  function FlagKeys(n: nat): set<Text> {
    if n == 0 then {} else FlagKeys(n - 1) + {[n - 1]}
  }

  lemma {:induction false} FlagKeysCount(n: nat)
    ensures |FlagKeys(n)| == n && forall k :: k in FlagKeys(n) ==> |k| == 1 && k[0] < n
  {
    if n > 0 {
      FlagKeysCount(n - 1);
      assert [n - 1] !in FlagKeys(n - 1);
    }
  }

  /** `n` flags that are all set. */
  function Flags(n: nat): (r: Properties)
    ensures |r| == n && r.Keys == FlagKeys(n) && forall k :: k in r ==> r[k] == BooleanValue(true)
  {
    FlagKeysCount(n);
    var r := map k | k in FlagKeys(n) :: BooleanValue(true);
    assert r.Keys == FlagKeys(n);
    r
  }

  lemma FlagsHold(element: Element, pset: Text, n: nat, m: nat)
    requires n <= m && pset in element.known && element.known[pset] == Flags(m)
    ensures forall k :: k in Flags(n) ==> Holds(element.known, k, Flags(n)[k])
  {
    FewerFlags(n, m);
    forall k | k in Flags(n) ensures Holds(element.known, k, Flags(n)[k]) {
      assert k in element.known[pset];
    }
  }

  lemma {:induction false} FewerFlags(n: nat, m: nat)
    requires n <= m
    ensures FlagKeys(n) <= FlagKeys(m)
  {
    if n < m {
      FewerFlags(n, m - 1);
    }
  }

  /** Four conditions listed before five: the less specific rule is chosen. */
  lemma LessSpecificWins(cls: nat, pset: Text, key: Text, first: Value, second: Value, entity: Text)
    requires |key| != 1
    ensures var four := Rule(cls, Flags(4), map[pset := map[key := first]]);
            var five := Rule(cls, Flags(5), map[pset := map[key := second]]);
            var element := Element(entity, cls, map[pset := Flags(5)]);
            && IsBest([four, five], element, pset, key, DefaultConfig, 0)
            && !MostSpecific([four, five], element, pset, key, 0)
            && IsProposal([four, five], element, pset, key, DefaultConfig, Proposal(entity, pset, key, first, 97))
  {
    hide Flags, Holds, FlagKeys;
    var four := Rule(cls, Flags(4), map[pset := map[key := first]]);
    var five := Rule(cls, Flags(5), map[pset := map[key := second]]);
    var element := Element(entity, cls, map[pset := Flags(5)]);
    FlagsHold(element, pset, 4, 5);
    FlagsHold(element, pset, 5, 5);
    assert Supplies(four, element, pset, key) && Supplies(five, element, pset, key);
    assert Confidence(four, DefaultConfig) == 97 && Confidence(five, DefaultConfig) == 97;
    hide Supplies, Confidence;
    assert SuppliesAt([four, five], element, pset, key, 1);
    assert IsBest([four, five], element, pset, key, DefaultConfig, 0);
    FlagKeysCount(5);
  }

  // ----- Grouping into a diff -----

  type Slot = (Text, Text)

  predicate SlotLe(a: Slot, b: Slot) {
    if a.0 == b.0 then LexLe(a.1, b.1) else LexLe(a.0, b.0)
  }

  lemma SlotIsTotalOrder()
    ensures TotalOrder(SlotLe)
  {
    LexIsTotalOrder();
    forall a, b, c | SlotLe(a, b) && SlotLe(b, c) ensures SlotLe(a, c) { }
  }

  /** An update of one element: the pset, the keys with their values, and the average confidence in hundredths. */
  datatype Update = Update(target: nat, pset: Text, properties: seq<(Text, Value)>, confidence: real)

  /** Reading an entity id is an oracle. */
  type IdParser = Text -> Option<nat>

  function SlotOf(p: Proposal): Slot {
    (p.entity, p.pset)
  }

  function SlotsOf(ps: seq<Proposal>): set<Slot> {
    set p | p in ps :: SlotOf(p)
  }

  /** The proposals of one slot, in order. */
  function GroupOf(ps: seq<Proposal>, slot: Slot): (r: seq<Proposal>)
    ensures forall p :: p in r <==> p in ps && SlotOf(p) == slot
  {
    if ps == [] then [] else
      var n := |ps| - 1;
      assert ps == ps[..n] + [ps[n]];
      if SlotOf(ps[n]) == slot then GroupOf(ps[..n], slot) + [ps[n]] else GroupOf(ps[..n], slot)
  }

  function TotalConfidence(group: seq<Proposal>): int {
    if group == [] then 0 else TotalConfidence(group[..|group| - 1]) + group[|group| - 1].confidence
  }

  function Pairs(group: seq<Proposal>): seq<(Text, Value)> {
    seq(|group|, i requires 0 <= i < |group| => (group[i].key, group[i].value))
  }

  function UpdateOf(target: nat, pset: Text, group: seq<Proposal>): Update
    requires group != []
  {
    Update(target, pset, Pairs(group), TotalConfidence(group) as real / |group| as real)
  }

  lemma Grouped(ps: seq<Proposal>, slot: Slot)
    ensures GroupOf(ps, slot) != [] <==> slot in SlotsOf(ps)
  {
    var g := GroupOf(ps, slot);
    assert g != [] ==> g[0] in g && SlotOf(g[0]) in SlotsOf(ps);
    if slot in SlotsOf(ps) {
      var p :| p in ps && SlotOf(p) == slot;
      assert p in g;
    }
  }

  ghost predicate AllIn(slots: seq<Slot>, all: set<Slot>) {
    forall s :: s in slots ==> s in all
  }

  /** The updates of the slots in `slots` whose element id can be read. */
  function UpdatesOf(ps: seq<Proposal>, slots: seq<Slot>, parse: IdParser): seq<Update>
    requires AllIn(slots, SlotsOf(ps))
  {
    if slots == [] then [] else
      var n := |slots| - 1;
      var slot := slots[n];
      assert slot in slots;
      Grouped(ps, slot);
      assert forall s :: s in slots[..n] ==> s in slots;
      var rest := UpdatesOf(ps, slots[..n], parse);
      if parse(slot.0).None? then rest else rest + [UpdateOf(parse(slot.0).value, slot.1, GroupOf(ps, slot))]
  }

  lemma NoUpdates(ps: seq<Proposal>, parse: IdParser)
    ensures AllIn([], SlotsOf(ps)) && UpdatesOf(ps, [], parse) == []
  { }

  lemma SlotsInOrder(ps: seq<Proposal>)
    ensures var slots := SortedSet(SlotLe, SlotsOf(ps));
            AllIn(slots, SlotsOf(ps)) && Distinct(slots) && forall s :: s in SlotsOf(ps) ==> s in slots
  {
    hide SlotLe, SlotsOf, SortedSet;
    SlotIsTotalOrder();
    SortedSetMeaning(SlotLe, SlotsOf(ps));
  }

  ghost function Diff(ps: seq<Proposal>, parse: IdParser): seq<Update> {
    SlotsInOrder(ps);
    UpdatesOf(ps, SortedSet(SlotLe, SlotsOf(ps)), parse)
  }

  lemma NoSlots()
    ensures SlotsOf([]) == {}
  { }

  lemma GroupStep(ps: seq<Proposal>, n: nat)
    requires n < |ps|
    ensures SlotsOf(ps[..n + 1]) == SlotsOf(ps[..n]) + {SlotOf(ps[n])}
    ensures forall slot :: GroupOf(ps[..n + 1], slot) == GroupOf(ps[..n], slot) + if SlotOf(ps[n]) == slot then [ps[n]] else []
  {
    assert ps[..n + 1] == ps[..n] + [ps[n]] && ps[..n + 1][..n] == ps[..n];
  }

  method GroupProposals(ps: seq<Proposal>) returns (grouped: map<Slot, seq<Proposal>>)
    ensures grouped.Keys == SlotsOf(ps)
    ensures forall s :: s in grouped ==> grouped[s] == GroupOf(ps, s)
  {
    hide GroupOf, SlotsOf;
    grouped := map[];
    assert SlotsOf(ps[..0]) == {} by {
      NoSlots();
      assert ps[..0] == [];
    }
    for n := 0 to |ps|
      invariant grouped.Keys == SlotsOf(ps[..n])
      invariant forall s :: s in grouped ==> grouped[s] == GroupOf(ps[..n], s)
    {
      var slot := SlotOf(ps[n]);
      GroupStep(ps, n);
      Grouped(ps[..n], slot);
      grouped := grouped[slot := (if slot in grouped then grouped[slot] else []) + [ps[n]]];
    }
    assert ps[..|ps|] == ps;
  }

  method BuildUpdate(target: nat, pset: Text, group: seq<Proposal>) returns (op: Update)
    requires group != []
    ensures op == UpdateOf(target, pset, group)
  {
    var properties, sum := [], 0;
    for k := 0 to |group|
      invariant properties == Pairs(group[..k]) && sum == TotalConfidence(group[..k])
    {
      assert group[..k + 1][..k] == group[..k];
      sum := sum + group[k].confidence;
      properties := properties + [(group[k].key, group[k].value)];
    }
    assert group[..|group|] == group;
    op := Update(target, pset, properties, sum as real / |group| as real);
  }

  lemma UpdatesStep(ps: seq<Proposal>, slots: seq<Slot>, n: nat, parse: IdParser)
    requires n < |slots| && AllIn(slots, SlotsOf(ps))
    ensures AllIn(slots[..n], SlotsOf(ps)) && AllIn(slots[..n + 1], SlotsOf(ps))
    ensures slots[n] in SlotsOf(ps) && GroupOf(ps, slots[n]) != []
    ensures UpdatesOf(ps, slots[..n + 1], parse)
         == UpdatesOf(ps, slots[..n], parse)
            + if parse(slots[n].0).None? then [] else [UpdateOf(parse(slots[n].0).value, slots[n].1, GroupOf(ps, slots[n]))]
  {
    hide UpdateOf, GroupOf, SlotsOf;
    assert slots[n] in slots;
    Grouped(ps, slots[n]);
    assert slots[..n + 1][..n] == slots[..n];
  }

  method ToDiff(ps: seq<Proposal>, parse: IdParser) returns (ops: seq<Update>)
    ensures ops == Diff(ps, parse)
  {
    hide UpdatesOf, UpdateOf, GroupOf, SlotsOf, SlotLe, TotalOrder, SortedBy, AllIn;
    var grouped := GroupProposals(ps);
    SlotIsTotalOrder();
    SlotsInOrder(ps);
    var slots := ListSorted(SlotLe, grouped.Keys);
    NoUpdates(ps, parse);
    ops := [];
    assert slots[..0] == [];
    for n := 0 to |slots|
      invariant AllIn(slots[..n], SlotsOf(ps))
      invariant ops == UpdatesOf(ps, slots[..n], parse)
    {
      var slot := slots[n];
      UpdatesStep(ps, slots, n, parse);
      var target := parse(slot.0);
      if target.None? {
        continue;
      }
      var op := BuildUpdate(target.value, slot.1, grouped[slot]);
      ops := ops + [op];
    }
    assert slots[..|slots|] == slots;
  }

  // ----- Conservation -----

  datatype Entry = Entry(target: nat, pset: Text, key: Text, value: Value)

  function EntriesOf(op: Update): seq<Entry> {
    seq(|op.properties|, i requires 0 <= i < |op.properties| => Entry(op.target, op.pset, op.properties[i].0, op.properties[i].1))
  }

  function Written(ops: seq<Update>): seq<Entry> {
    if ops == [] then [] else Written(ops[..|ops| - 1]) + EntriesOf(ops[|ops| - 1])
  }

  /** The proposals whose element id can be read, as what they ask to write. */
  function Asked(ps: seq<Proposal>, parse: IdParser): seq<Entry> {
    if ps == [] then [] else
      var p := ps[|ps| - 1];
      var rest := Asked(ps[..|ps| - 1], parse);
      if parse(p.entity).None? then rest else rest + [Entry(parse(p.entity).value, p.pset, p.key, p.value)]
  }

  function AskedIn(ps: seq<Proposal>, slots: seq<Slot>, parse: IdParser): seq<Entry> {
    if slots == [] then [] else
      AskedIn(ps, slots[..|slots| - 1], parse) + Asked(GroupOf(ps, slots[|slots| - 1]), parse)
  }

  lemma {:induction false} GroupIsWritten(group: seq<Proposal>, slot: Slot, parse: IdParser)
    requires forall i :: 0 <= i < |group| ==> SlotOf(group[i]) == slot
    ensures |Asked(group, parse)| == if parse(slot.0).None? then 0 else |group|
    ensures parse(slot.0).Some? ==> forall i :: 0 <= i < |group| ==>
              Asked(group, parse)[i] == Entry(parse(slot.0).value, slot.1, group[i].key, group[i].value)
  {
    if group != [] {
      var n := |group| - 1;
      assert forall i :: 0 <= i < n ==> group[..n][i] == group[i];
      GroupIsWritten(group[..n], slot, parse);
    }
  }

  lemma UpdateWritesGroup(group: seq<Proposal>, slot: Slot, parse: IdParser)
    requires group != [] && forall p :: p in group ==> SlotOf(p) == slot
    ensures Asked(group, parse) == if parse(slot.0).None? then [] else EntriesOf(UpdateOf(parse(slot.0).value, slot.1, group))
  {
    hide Asked;
    GroupIsWritten(group, slot, parse);
  }

  lemma {:induction false} UpdatesWriteGroups(ps: seq<Proposal>, slots: seq<Slot>, parse: IdParser)
    requires AllIn(slots, SlotsOf(ps))
    ensures Written(UpdatesOf(ps, slots, parse)) == AskedIn(ps, slots, parse)
  {
    if slots != [] {
      var n := |slots| - 1;
      var slot := slots[n];
      assert slot in slots && slots == slots[..n] + [slot];
      UpdatesWriteGroups(ps, slots[..n], parse);
      Grouped(ps, slot);
      UpdateWritesGroup(GroupOf(ps, slot), slot, parse);
      var rest := UpdatesOf(ps, slots[..n], parse);
      var ops := UpdatesOf(ps, slots, parse);
      assert ops != rest ==> ops[..|ops| - 1] == rest;
    }
  }

  lemma AskedSnoc(ps: seq<Proposal>, p: Proposal, parse: IdParser)
    ensures Asked(ps + [p], parse) == Asked(ps, parse) + Asked([p], parse)
  {
    assert (ps + [p])[..|ps|] == ps && [p][..0] == [];
  }

  lemma AskedOfNone(parse: IdParser)
    ensures Asked([], parse) == []
  { }

  /** One more proposal adds its own entry to the one group it belongs to. */
  lemma {:induction false} AskedInGrows(ps: seq<Proposal>, p: Proposal, slots: seq<Slot>, parse: IdParser)
    requires Distinct(slots)
    ensures multiset(AskedIn(ps + [p], slots, parse))
         == multiset(AskedIn(ps, slots, parse)) + (if SlotOf(p) in slots then multiset(Asked([p], parse)) else multiset{})
  {
    assert (ps + [p])[..|ps|] == ps;
    if slots != [] {
      var n := |slots| - 1;
      var slot := slots[n];
      assert slots == slots[..n] + [slot];
      AskedInGrows(ps, p, slots[..n], parse);
      var group := GroupOf(ps, slot);
      if SlotOf(p) == slot {
        assert slot !in slots[..n];
        assert GroupOf(ps + [p], slot) == group + [p];
        AskedSnoc(group, p, parse);
      }
    }
  }

  lemma {:induction false} GroupsHoldAll(ps: seq<Proposal>, slots: seq<Slot>, parse: IdParser)
    requires Distinct(slots) && forall p :: p in ps ==> SlotOf(p) in slots
    ensures multiset(AskedIn(ps, slots, parse)) == multiset(Asked(ps, parse))
  {
    hide GroupOf, AskedIn, SlotOf, Distinct, Asked;
    if ps == [] {
      NothingAsked(slots, parse);
      AskedOfNone(parse);
    } else {
      var n := |ps| - 1;
      assert ps == ps[..n] + [ps[n]];
      GroupsHoldAll(ps[..n], slots, parse);
      AskedInGrows(ps[..n], ps[n], slots, parse);
      AskedSnoc(ps[..n], ps[n], parse);
    }
  }

  lemma {:induction false} NothingAsked(slots: seq<Slot>, parse: IdParser)
    ensures AskedIn([], slots, parse) == []
  {
    if slots != [] {
      NothingAsked(slots[..|slots| - 1], parse);
    }
  }

  /** Every proposal with a readable element id is written exactly once, and nothing else is. */
  lemma DiffConserves(ps: seq<Proposal>, parse: IdParser)
    ensures multiset(Written(Diff(ps, parse))) == multiset(Asked(ps, parse))
  {
    SlotsInOrder(ps);
    var slots := SortedSet(SlotLe, SlotsOf(ps));
    UpdatesWriteGroups(ps, slots, parse);
    forall p | p in ps ensures SlotOf(p) in slots {
      assert SlotOf(p) in SlotsOf(ps);
    }
    GroupsHoldAll(ps, slots, parse);
  }

  // ----- What reviewers see -----

  lemma OneMore(a: int, n: int, m: int)
    requires m == n + 1
    ensures a * m == a * n + a
  { }

  lemma {:induction false} TotalWithin(group: seq<Proposal>, low: int, high: int)
    requires forall p :: p in group ==> low <= p.confidence <= high
    ensures low * |group| <= TotalConfidence(group) <= high * |group|
  {
    if group != [] {
      var n := |group| - 1;
      assert group[n] in group && forall p :: p in group[..n] ==> p in group;
      TotalWithin(group[..n], low, high);
      OneMore(low, n, |group|);
      OneMore(high, n, |group|);
    }
  }

  lemma AverageWithin(total: int, n: nat, low: int, high: int)
    requires n > 0 && low * n <= total <= high * n
    ensures low as real <= total as real / n as real <= high as real
  {
    var d := n as real;
    var q := total as real / d;
    assert q * d == total as real;
    assert low as real * d == (low * n) as real && high as real * d == (high * n) as real;
    Scaling(q, low as real, d);
    Scaling(high as real, q, d);
  }

  lemma Scaling(a: real, b: real, d: real)
    requires d > 0.0
    ensures a < b ==> a * d < b * d
  {
    var gap := b - a;
    assert gap > 0.0 ==> gap * d > 0.0;
    assert b * d - a * d == gap * d;
  }

  lemma {:induction false} UpdatesAreSound(ps: seq<Proposal>, slots: seq<Slot>, parse: IdParser, low: int, high: int)
    requires AllIn(slots, SlotsOf(ps))
    requires forall p :: p in ps ==> low <= p.confidence <= high
    ensures forall op :: op in UpdatesOf(ps, slots, parse) ==> op.properties != [] && low as real <= op.confidence <= high as real
  {
    if slots != [] {
      var n := |slots| - 1;
      var slot := slots[n];
      assert slot in slots && slots == slots[..n] + [slot];
      UpdatesAreSound(ps, slots[..n], parse, low, high);
      var group := GroupOf(ps, slot);
      Grouped(ps, slot);
      TotalWithin(group, low, high);
      AverageWithin(TotalConfidence(group), |group|, low, high);
    }
  }

  lemma ConfidencesWithin(rules: seq<Rule>, elements: seq<Element>, catalogue: Catalogue, config: Config)
    ensures forall p :: p in ForElements(rules, elements, catalogue, config) ==>
              config.minConfidence <= p.confidence <= config.maxConfidence
  {
    hide ProposedFor;
    ProposalsExact(rules, elements, catalogue, config);
    forall p | p in ForElements(rules, elements, catalogue, config)
      ensures config.minConfidence <= p.confidence <= config.maxConfidence
    {
      var e :| e in elements && ProposedFor(rules, e, catalogue, config, p);
      ProposedForItself(rules, e, catalogue, config, p);
    }
  }

  /** From rules to diff: no empty update, and every average stays between the minimum and the cap. */
  lemma FilledDiffIsConfident(rules: seq<Rule>, elements: seq<Element>, catalogue: Catalogue, config: Config, parse: IdParser)
    ensures forall op :: op in Diff(ForElements(rules, elements, catalogue, config), parse) ==>
              op.properties != [] && config.minConfidence as real <= op.confidence <= config.maxConfidence as real
  {
    hide UpdatesOf, ForElements, SlotsOf, SlotLe, TotalOrder, SortedBy;
    var ps := ForElements(rules, elements, catalogue, config);
    ConfidencesWithin(rules, elements, catalogue, config);
    SlotsInOrder(ps);
    UpdatesAreSound(ps, SortedSet(SlotLe, SlotsOf(ps)), parse, config.minConfidence, config.maxConfidence);
  }

  // ----- In numbers, and in order -----

  /** Eighty hundredths, five more per condition, up to the cap. */
  lemma ConfidenceSays(rule: Rule, config: Config)
    ensures 80 + 5 * |rule.conditions| <= config.maxConfidence ==> Confidence(rule, config) == 80 + 5 * |rule.conditions|
    ensures 80 + 5 * |rule.conditions| >= config.maxConfidence ==> Confidence(rule, config) == config.maxConfidence
    ensures DefaultConfig.minConfidence == 80 && DefaultConfig.maxConfidence == 97
  { }

  lemma {:induction false} TotalAdds(a: seq<Proposal>, b: seq<Proposal>)
    ensures TotalConfidence(a + b) == TotalConfidence(a) + TotalConfidence(b)
    ensures TotalConfidence([]) == 0 && forall p :: TotalConfidence([p]) == p.confidence
  {
    forall p ensures TotalConfidence([p]) == p.confidence {
      assert [p][..0] == [];
    }
    if b == [] {
      assert a + b == a;
    } else {
      var n := |b| - 1;
      assert (a + b)[..|a + b| - 1] == a + b[..n];
      TotalAdds(a, b[..n]);
    }
  }

  /** An update lists its group in order, and its confidence is the group's mean. */
  lemma UpdateSays(target: nat, pset: Text, group: seq<Proposal>)
    requires group != []
    ensures var op := UpdateOf(target, pset, group);
            && op.target == target && op.pset == pset && |op.properties| == |group|
            && (forall i :: 0 <= i < |group| ==> op.properties[i] == (group[i].key, group[i].value))
            && op.confidence * |group| as real == TotalConfidence(group) as real
  {
    var n, total := |group| as real, TotalConfidence(group) as real;
    assert total / n * n == total;
  }

  /** Grouping keeps the order of the proposals. */
  lemma {:induction false} GroupOfConcat(a: seq<Proposal>, b: seq<Proposal>, slot: Slot)
    ensures GroupOf(a + b, slot) == GroupOf(a, slot) + GroupOf(b, slot)
    ensures forall p :: GroupOf([p], slot) == if p.entity == slot.0 && p.pset == slot.1 then [p] else []
  {
    hide GroupOf, SlotOf;
    forall p ensures GroupOf([p], slot) == if p.entity == slot.0 && p.pset == slot.1 then [p] else [] {
      GroupOfOne(p, slot);
    }
    if b == [] {
      assert a + b == a;
      GroupOfNone(slot);
    } else {
      var n := |b| - 1;
      GroupOfConcat(a, b[..n], slot);
      GroupOfLast(a + b, slot);
      GroupOfLast(b, slot);
      assert (a + b)[..|a + b| - 1] == a + b[..n] && (a + b)[|a + b| - 1] == b[n];
    }
  }

  lemma GroupOfNone(slot: Slot)
    ensures GroupOf([], slot) == []
  { }

  lemma GroupOfOne(p: Proposal, slot: Slot)
    ensures GroupOf([p], slot) == if p.entity == slot.0 && p.pset == slot.1 then [p] else []
  {
    assert [p][..0] == [];
  }

  lemma GroupOfLast(ps: seq<Proposal>, slot: Slot)
    requires ps != []
    ensures GroupOf(ps, slot) == GroupOf(ps[..|ps| - 1], slot) + if SlotOf(ps[|ps| - 1]) == slot then [ps[|ps| - 1]] else []
  { }

  /** The slots whose element id can be read, in order. */
  function Readable(slots: seq<Slot>, parse: IdParser): (r: seq<Slot>)
    ensures forall s :: s in r <==> s in slots && parse(s.0).Some?
  {
    if slots == [] then []
    else
      var n := |slots| - 1;
      assert slots == slots[..n] + [slots[n]];
      Readable(slots[..n], parse) + if parse(slots[n].0).Some? then [slots[n]] else []
  }

  lemma {:induction false} ReadableKeepsOrder(slots: seq<Slot>, parse: IdParser)
    requires SortedBy(SlotLe, slots) && Distinct(slots)
    ensures SortedBy(SlotLe, Readable(slots, parse)) && Distinct(Readable(slots, parse))
  {
    hide SlotLe;
    if slots != [] {
      var n := |slots| - 1;
      var front := Readable(slots[..n], parse);
      assert forall i :: 0 <= i < n ==> slots[..n][i] == slots[i];
      ReadableKeepsOrder(slots[..n], parse);
      forall i | 0 <= i < |front| ensures SlotLe(front[i], slots[n]) && front[i] != slots[n] {
        ReadableIsListed(slots, n, parse, front[i]);
      }
      var r := Readable(slots, parse);
      assert r == front || r == front + [slots[n]];
      hide Readable;
    }
  }

  lemma ReadableIsListed(slots: seq<Slot>, n: nat, parse: IdParser, s: Slot)
    requires n < |slots| && SortedBy(SlotLe, slots) && Distinct(slots) && s in Readable(slots[..n], parse)
    ensures SlotLe(s, slots[n]) && s != slots[n]
  {
    hide SlotLe;
    var k :| 0 <= k < n && slots[..n][k] == s;
    assert slots[k] == s;
  }

  lemma {:induction false} UpdatesAreReadable(ps: seq<Proposal>, slots: seq<Slot>, parse: IdParser)
    requires AllIn(slots, SlotsOf(ps))
    ensures var r, ops := Readable(slots, parse), UpdatesOf(ps, slots, parse);
            && |ops| == |r|
            && forall k :: 0 <= k < |r| ==>
                 parse(r[k].0).Some? && GroupOf(ps, r[k]) != []
                 && ops[k] == UpdateOf(parse(r[k].0).value, r[k].1, GroupOf(ps, r[k]))
  {
    hide GroupOf, SlotsOf, UpdateOf;
    if slots != [] {
      var n := |slots| - 1;
      assert slots == slots[..n] + [slots[n]] && slots[n] in slots;
      UpdatesAreReadable(ps, slots[..n], parse);
      Grouped(ps, slots[n]);
    }
  }

  /** One update for each element and property set that can be read, by element and then property set, ascending. */
  lemma DiffIsInOrder(ps: seq<Proposal>, parse: IdParser) returns (slots: seq<Slot>)
    ensures SortedBy(SlotLe, slots) && Distinct(slots)
    ensures forall s :: s in slots <==> parse(s.0).Some? && exists p :: p in ps && p.entity == s.0 && p.pset == s.1
    ensures |Diff(ps, parse)| == |slots|
    ensures forall k :: 0 <= k < |slots| ==>
              parse(slots[k].0).Some? && GroupOf(ps, slots[k]) != []
              && Diff(ps, parse)[k] == UpdateOf(parse(slots[k].0).value, slots[k].1, GroupOf(ps, slots[k]))
  {
    hide UpdateOf, GroupOf, SlotLe, TotalOrder, UpdatesOf;
    var all := SortedSet(SlotLe, SlotsOf(ps));
    SlotIsTotalOrder();
    SortedSetMeaning(SlotLe, SlotsOf(ps));
    SlotsInOrder(ps);
    slots := Readable(all, parse);
    ReadableKeepsOrder(all, parse);
    UpdatesAreReadable(ps, all, parse);
    forall s: Slot ensures s in SlotsOf(ps) <==> exists p :: p in ps && p.entity == s.0 && p.pset == s.1 {
      if p :| p in ps && p.entity == s.0 && p.pset == s.1 {
        assert SlotOf(p) == s;
      }
    }
  }

  lemma SlotLeIff(a: Slot, b: Slot)
    ensures SlotLe(a, b) <==> (a.0 != b.0 && LexLe(a.0, b.0)) || (a.0 == b.0 && LexLe(a.1, b.1))
  { }

  /** A rule supplies a key when its class is the element's, each condition is known in some set, and its defaults have it. */
  lemma SuppliesIff(rule: Rule, element: Element, pset: Text, key: Text)
    ensures Supplies(rule, element, pset, key)
       <==> && rule.cls == element.cls
            && (forall k :: k in rule.conditions ==>
                  exists set_ :: set_ in element.known && k in element.known[set_] && element.known[set_][k] == rule.conditions[k])
            && pset in rule.defaults && key in rule.defaults[pset]
  {
    forall k | k in rule.conditions
      ensures Holds(element.known, k, rule.conditions[k])
         <==> exists set_ :: set_ in element.known && k in element.known[set_] && element.known[set_][k] == rule.conditions[k] { }
  }

  /** What each proposal says: an unknown required key of an element, and the value and confidence of one of the rules. */
  lemma ProposalSays(rules: seq<Rule>, elements: seq<Element>, catalogue: Catalogue, config: Config, p: Proposal)
    requires p in ForElements(rules, elements, catalogue, config)
    ensures exists e :: && e in elements && p.entity == e.entity && catalogue.psetName(e.cls) == Some(p.pset)
                        && p.key in catalogue.requiredKeys(e.cls) && !(p.pset in e.known && p.key in e.known[p.pset])
    ensures config.minConfidence <= p.confidence
    ensures exists i :: && 0 <= i < |rules| && p.pset in rules[i].defaults && p.key in rules[i].defaults[p.pset]
                        && p.value == rules[i].defaults[p.pset][p.key] && p.confidence == Confidence(rules[i], config)
  {
    hide Confidence, Applies;
    ProposalsExact(rules, elements, catalogue, config);
    var e :| e in elements && ProposedFor(rules, e, catalogue, config, p);
    var i :| IsBest(rules, e, p.pset, p.key, config, i) && config.minConfidence <= Confidence(rules[i], config)
      && p == Proposal(e.entity, p.pset, p.key, rules[i].defaults[p.pset][p.key], Confidence(rules[i], config));
  }
}
