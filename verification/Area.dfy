/**
 * `tratar_area`: the free-text area of an applicant is reduced to one of ten
 * categories by prefix tests on the stripped text, tried in a fixed order.
 */
module Area {
  import opened Text
  import opened Optional

  /** The ten categories the function can return. */
  const Categories: set<string> := {
    "TI", "Comercial", "Administrativa", "Recursos Humanos", "Financeira",
    "Gestão", "Jurídica", "Qualidade", "Marketing", "Outros"
  }

  /** The catch-all category. */
  const Other: string := "Outros"

  /** A prefix test and the category it selects. */
  datatype Rule = Rule(prefix: string, category: string)

  /** The tests in the order the `if`/`elif` chain makes them. */
  const Rules: seq<Rule> := [
    Rule("TI", "TI"),
    Rule("Relacionamento Técnico", "TI"),
    Rule("Comercial", "Comercial"),
    Rule("Novos", "Comercial"),
    Rule("Administrativa", "Administrativa"),
    Rule("Recursos Humanos", "Recursos Humanos"),
    Rule("Financeira", "Financeira"),
    Rule("Gestão", "Gestão"),
    Rule("Jurídica", "Jurídica"),
    Rule("Qualidade", "Qualidade"),
    Rule("Marketing", "Marketing")
  ]

  /** Rule `i` is the first whose prefix `t` starts with. */
  predicate FirstMatch(rules: seq<Rule>, t: string, i: int) {
    && 0 <= i < |rules|
    && StartsWith(t, rules[i].prefix)
    && forall j :: 0 <= j < i ==> !StartsWith(t, rules[j].prefix)
  }

  /** The category of the first matching rule, if any. */
  function FirstCategory(rules: seq<Rule>, t: string): (r: Option<string>)
    ensures r.Some? <==> exists i :: 0 <= i < |rules| && StartsWith(t, rules[i].prefix)
    ensures r.Some? ==> exists i :: FirstMatch(rules, t, i) && r.value == rules[i].category
  {
    if |rules| == 0 then None
    else if StartsWith(t, rules[0].prefix) then
      assert FirstMatch(rules, t, 0);
      Some(rules[0].category)
    else
      var r := FirstCategory(rules[1..], t);
      assert forall i :: 0 < i < |rules| ==> rules[i] == rules[1..][i - 1];
      assert r.Some? ==> exists i :: FirstMatch(rules, t, i) && r.value == rules[i].category by {
        if r.Some? {
          var i :| FirstMatch(rules[1..], t, i) && r.value == rules[1..][i].category;
          assert FirstMatch(rules, t, i + 1);
        }
      }
      r
  }

  /** `tratar_area(area)`: a missing value is "Outros"; otherwise the text is
      stripped and the category of the first prefix it starts with is taken,
      or "Outros" when none matches. */
  function Categorize(area: Option<string>): (r: string)
    ensures r in Categories
    ensures area.None? ==> r == Other
  {
    match area
    case None => Other
    case Some(a) =>
      var m := FirstCategory(Rules, Strip(a));
      assert m.Some? ==> m.value in Categories by {
        if m.Some? {
          var i :| FirstMatch(Rules, Strip(a), i) && m.value == Rules[i].category;
          RuleCategoryListed(i);
        }
      }
      Fill(m, Other)
  }

  /** Each rule's category is one of the ten. */
  lemma RuleCategoryListed(i: int)
    requires 0 <= i < |Rules|
    ensures Rules[i].category in Categories
    ensures Rules[i].category != Other
  {
    if i < 6 {
      assert Rules[i].category in {"TI", "Comercial", "Administrativa", "Recursos Humanos"};
    } else {
      assert Rules[i].category in {"Financeira", "Gestão", "Jurídica", "Qualidade", "Marketing"};
    }
  }

  /** Only one rule can be the first match. */
  lemma FirstMatchUnique(rules: seq<Rule>, t: string, i: int, k: int)
    requires FirstMatch(rules, t, i) && FirstMatch(rules, t, k)
    ensures i == k
  {
  }

  /** Whatever the rules, the category found is that of the first match. */
  lemma FirstCategoryOf(rules: seq<Rule>, t: string, i: int)
    requires FirstMatch(rules, t, i)
    ensures FirstCategory(rules, t) == Some(rules[i].category)
  {
    var r := FirstCategory(rules, t);
    var k :| FirstMatch(rules, t, k) && r.value == rules[k].category;
    FirstMatchUnique(rules, t, i, k);
  }

  /** First match wins, whichever later prefixes also match. */
  lemma {:induction false} FirstRuleWins(a: string, i: int)
    requires FirstMatch(Rules, Strip(a), i)
    ensures Categorize(Some(a)) == Rules[i].category
  {
    FirstCategoryOf(Rules, Strip(a), i);
  }

  /** Surrounding whitespace is irrelevant: only the stripped text counts. */
  lemma {:induction false} StripIrrelevant(a: string)
    ensures Categorize(Some(a)) == Categorize(Some(Strip(a)))
  {
    StripIdempotent(a);
  }

  /** `t` does not start with `p` when they differ at a position both have. */
  lemma {:induction false} DiffersAt(t: string, p: string, k: nat)
    requires k < |p| && k < |t| && t[k] != p[k]
    ensures !StartsWith(t, p)
  {
  }

  /** Rule `i` is the first match of `t` when `t` starts with its prefix and
      differs from each earlier prefix at the position given in `at`. */
  lemma {:induction false} FirstMatchAt(t: string, i: nat, at: seq<nat>)
    requires i < |Rules| && StartsWith(t, Rules[i].prefix)
    requires |at| == i
    requires forall j :: 0 <= j < i ==> at[j] < |Rules[j].prefix| && at[j] < |t| && t[at[j]] != Rules[j].prefix[at[j]]
    ensures FirstMatch(Rules, t, i)
  {
    forall j | 0 <= j < i ensures !StartsWith(t, Rules[j].prefix) {
      DiffersAt(t, Rules[j].prefix, at[j]);
    }
  }

  /** A stripped text that rule `i` matches first is given rule `i`'s
      category. */
  lemma {:induction false} CategoryAt(t: string, i: nat, at: seq<nat>)
    requires IsStripped(t)
    requires i < |Rules| && StartsWith(t, Rules[i].prefix)
    requires |at| == i
    requires forall j :: 0 <= j < i ==> at[j] < |Rules[j].prefix| && at[j] < |t| && t[at[j]] != Rules[j].prefix[at[j]]
    ensures Categorize(Some(t)) == Rules[i].category
  {
    StrippedIsFixed(t);
    assert FirstMatch(Rules, t, i) by {
      FirstMatchAt(t, i, at);
    }
    FirstRuleWins(t, i);
  }

  /** The letters the prefixes begin with. */
  lemma RuleInitials()
    ensures forall i :: 0 <= i < |Rules| ==> |Rules[i].prefix| > 0 && Rules[i].prefix[0] in "TRCNAFGJQM"
  {
    forall i | 0 <= i < |Rules| ensures |Rules[i].prefix| > 0 && Rules[i].prefix[0] in "TRCNAFGJQM" {
      if i < 6 {
        assert Rules[i].prefix[0] in "TRCNAR";
      } else {
        assert Rules[i].prefix[0] in "FGJQM";
      }
    }
  }

  /** A stripped text whose first letter begins no prefix is "Outros". */
  lemma {:induction false} NoRuleMatches(t: string)
    requires IsStripped(t) && |t| > 0 && t[0] !in "TRCNAFGJQM"
    ensures Categorize(Some(t)) == Other
  {
    StrippedIsFixed(t);
    RuleInitials();
    forall i | 0 <= i < |Rules| ensures !StartsWith(t, Rules[i].prefix) {
      var p := Rules[i].prefix;
      assert p[0] in "TRCNAFGJQM";
      DiffersAt(t, p, 0);
    }
  }

  /** The final `else`: an area is "Outros" exactly when its stripped text
      starts with none of the prefixes, since no rule selects "Outros". */
  lemma {:induction false} NoMatchIsOther(a: string)
    ensures Categorize(Some(a)) == Other <==>
      forall i :: 0 <= i < |Rules| ==> !StartsWith(Strip(a), Rules[i].prefix)
  {
    var m := FirstCategory(Rules, Strip(a));
    if m.Some? {
      var i :| FirstMatch(Rules, Strip(a), i) && m.value == Rules[i].category;
      RuleCategoryListed(i);
    }
  }

  /** No prefix matches "Outros", so it is its own category. */
  lemma OtherIsFixed()
    ensures Categorize(Some(Other)) == Other
  {
    NoRuleMatches(Other);
  }

  /** Each of the ten categories is mapped to itself: its text is already
      stripped, and it starts with the prefix of the first rule giving that
      category and with no earlier prefix ("Outros" with none at all). */
  lemma CategoryIsFixed(c: string)
    requires c in Categories
    ensures Categorize(Some(c)) == c
  {
    if c in {"TI", "Comercial", "Administrativa", "Recursos Humanos", "Financeira"} {
      FirstFiveFixed(c);
    } else {
      LastFiveFixed(c);
    }
  }

  lemma FirstFiveFixed(c: string)
    requires c in {"TI", "Comercial", "Administrativa", "Recursos Humanos", "Financeira"}
    ensures Categorize(Some(c)) == c
  {
    if c == "TI" {
      TiIsFixed();
    } else if c == "Comercial" {
      ComercialIsFixed();
    } else if c == "Administrativa" {
      AdministrativaIsFixed();
    } else if c == "Recursos Humanos" {
      RecursosHumanosIsFixed();
    } else {
      FinanceiraIsFixed();
    }
  }

  lemma LastFiveFixed(c: string)
    requires c in {"Gestão", "Jurídica", "Qualidade", "Marketing", "Outros"}
    ensures Categorize(Some(c)) == c
  {
    if c == "Gestão" {
      GestaoIsFixed();
    } else if c == "Jurídica" {
      JuridicaIsFixed();
    } else if c == "Qualidade" {
      QualidadeIsFixed();
    } else if c == "Marketing" {
      MarketingIsFixed();
    } else {
      OtherIsFixed();
    }
  }

  lemma TiIsFixed()
    ensures Categorize(Some("TI")) == "TI"
  {
    CategoryAt("TI", 0, []);
  }

  lemma ComercialIsFixed()
    ensures Categorize(Some("Comercial")) == "Comercial"
  {
    CategoryAt("Comercial", 2, [0, 0]);
  }

  lemma AdministrativaIsFixed()
    ensures Categorize(Some("Administrativa")) == "Administrativa"
  {
    CategoryAt("Administrativa", 4, [0, 0, 0, 0]);
  }

  lemma RecursosHumanosIsFixed()
    ensures Categorize(Some("Recursos Humanos")) == "Recursos Humanos"
  {
    CategoryAt("Recursos Humanos", 5, [0, 2, 0, 0, 0]);
  }

  lemma FinanceiraIsFixed()
    ensures Categorize(Some("Financeira")) == "Financeira"
  {
    CategoryAt("Financeira", 6, [0, 0, 0, 0, 0, 0]);
  }

  lemma GestaoIsFixed()
    ensures Categorize(Some("Gestão")) == "Gestão"
  {
    CategoryAt("Gestão", 7, [0, 0, 0, 0, 0, 0, 0]);
  }

  lemma JuridicaIsFixed()
    ensures Categorize(Some("Jurídica")) == "Jurídica"
  {
    CategoryAt("Jurídica", 8, [0, 0, 0, 0, 0, 0, 0, 0]);
  }

  lemma QualidadeIsFixed()
    ensures Categorize(Some("Qualidade")) == "Qualidade"
  {
    CategoryAt("Qualidade", 9, [0, 0, 0, 0, 0, 0, 0, 0, 0]);
  }

  lemma MarketingIsFixed()
    ensures Categorize(Some("Marketing")) == "Marketing"
  {
    CategoryAt("Marketing", 10, [0, 0, 0, 0, 0, 0, 0, 0, 0, 0]);
  }

  lemma CategorizeIdempotent(area: Option<string>)
    ensures Categorize(Some(Categorize(area))) == Categorize(area)
  {
    CategoryIsFixed(Categorize(area));
  }

  /** Surrounding blanks are stripped before the tests: "TI - Desenvolvimento"
      padded with any whitespace is "TI". */
  lemma {:induction false} PaddedExample(pad: string)
    requires AllSpace(pad)
    ensures Categorize(Some(pad + "TI - Desenvolvimento" + pad)) == "TI"
  {
    var t := "TI - Desenvolvimento";
    StripExact(pad, t, pad);
    StripIrrelevant(pad + t + pad);
    DevelopmentExample();
  }

  /** A text beginning with "TI" is "TI". */
  lemma DevelopmentExample()
    ensures Categorize(Some("TI - Desenvolvimento")) == "TI"
  {
    CategoryAt("TI - Desenvolvimento", 0, []);
  }

  /** The second rule also yields "TI". */
  lemma TechnicalRelationsExample()
    ensures Categorize(Some("Relacionamento Técnico com Clientes")) == "TI"
  {
    CategoryAt("Relacionamento Técnico com Clientes", 1, [0]);
  }

  /** "Novos" is tried after "Comercial" and also yields "Comercial". */
  lemma NewBusinessExample()
    ensures Categorize(Some("Novos Negócios")) == "Comercial"
  {
    CategoryAt("Novos Negócios", 3, [0, 0, 0]);
  }

  /** A text no prefix matches falls through to "Outros". */
  lemma UnmatchedExample()
    ensures Categorize(Some("Engenharia")) == Other
  {
    NoRuleMatches("Engenharia");
  }
}
