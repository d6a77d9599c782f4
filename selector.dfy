/**
 * Relevance scoring and top-N selection (pipeline/selector.py). A text scores the weight of
 * every keyword that occurs in it as a whole word (`\b` on both sides), once per keyword,
 * whatever the number of occurrences; the selection keeps the `top_n` best-scored candidates,
 * ties going to the earlier row (pandas `nlargest`, `keep='first'`).
 */
module Selector {
  import opened PyValues
  import Text
  import Seqs
  import Ordering
  import Wrappers

  /** One entry of `RELEVANCE_KEYWORDS`: its terms and the weight each term found adds. */
  datatype Category = Category(termos: seq<string>, peso: int)

  const Marcas: seq<string> := [
    "google", "apple", "microsoft", "amazon", "samsung", "coca-cola",
    "toyota", "mercedes-benz", "mcdonald's", "disney", "nike",
    "instagram", "facebook", "meta", "itaú", "bradesco", "nubank",
    "banco do brasil", "petrobras", "vale", "magalu", "natura",
    "ambev", "havaianas", "renner", "netflix", "spotify", "uber"]

  const Campanhas: seq<string> := [
    "campanha", "lançamento", "lança", "anuncia", "patrocina",
    "parceria", "colaboração", "ativação", "evento", "marketing",
    "publicidade", "anúncio", "branding", "influenciadores"]

  const Impacto: seq<string> := [
    "revoluciona", "transforma", "inova", "impacto", "crescimento",
    "tendência", "futuro", "inteligência artificial", "ia", "novo"]

  /** The shipped keyword table, in the dict's order. */
  const RelevanceKeywords: seq<Category> := [Category(Marcas, 5), Category(Campanhas, 3), Category(Impacto, 2)]

  // ---------------------------------------------------------------------------------------
  // `re.search(r'\b' + re.escape(termo) + r'\b', texto)`

  /** `\b` at position `p`: a word character on exactly one side. */
  predicate BoundaryAt(s: string, p: int)
    requires 0 <= p <= |s|
  {
    (p > 0 && Text.IsWordChar(s[p - 1])) != (p < |s| && Text.IsWordChar(s[p]))
  }

  /** `t` occurs in `s` at `p`, with a word boundary before and after it. */
  predicate WordAt(s: string, t: string, p: int)
    requires 0 <= p <= |s|
  {
    p + |t| <= |s| && s[p..p + |t|] == t && BoundaryAt(s, p) && BoundaryAt(s, p + |t|)
  }

  predicate ContainsWord(s: string, t: string) {
    exists p :: 0 <= p <= |s| && WordAt(s, t, p)
  }

  // ---------------------------------------------------------------------------------------
  // calcular_score

  /** What the terms of one category add to the score of `s`. */
  function TermsScore(s: string, terms: seq<string>, peso: int): int {
    if terms == [] then 0
    else (if ContainsWord(s, terms[0]) then peso else 0) + TermsScore(s, terms[1..], peso)
  }

  function CategoriesScore(s: string, cats: seq<Category>): int {
    if cats == [] then 0 else TermsScore(s, cats[0].termos, cats[0].peso) + CategoriesScore(s, cats[1..])
  }

  /** calcular_score: 0 for anything but a `str`; otherwise scored on the lower-cased text. */
  function Score(texto: Value, cats: seq<Category>): int {
    if texto.PyStr? then CategoriesScore(Text.Lower(texto.s), cats) else 0
  }

  /** The largest score possible: every term of every category found. */
  function MaxScore(cats: seq<Category>): int {
    if cats == [] then 0 else cats[0].peso * |cats[0].termos| + MaxScore(cats[1..])
  }

  /** The terms of `terms` found in `s`, in order. */
  function Found(s: string, terms: seq<string>): (r: seq<string>)
    ensures forall x :: x in r <==> x in terms && ContainsWord(s, x)
  {
    if terms == [] then []
    else (if ContainsWord(s, terms[0]) then [terms[0]] else []) + Found(s, terms[1..])
  }

  /** A category adds its weight once per term found: the number of occurrences plays no part. */
  lemma {:induction false} TermsScoreCountsFound(s: string, terms: seq<string>, peso: int)
    ensures TermsScore(s, terms, peso) == peso * |Found(s, terms)|
    decreases |terms|
  {
    if terms != [] {
      TermsScoreCountsFound(s, terms[1..], peso);
      var b := ContainsWord(s, terms[0]);
      var n := |Found(s, terms[1..])|;
      assert |Found(s, terms)| == (if b then 1 else 0) + n;
      MulStep(peso, n, if b then 1 else 0);
    }
  }

  lemma MulStep(peso: int, n: nat, d: nat)
    ensures peso * (d + n) == peso * d + peso * n
  {
  }

  lemma {:induction false} TermsSamePresence(s1: string, s2: string, terms: seq<string>, peso: int)
    requires forall x :: x in terms ==> (ContainsWord(s1, x) <==> ContainsWord(s2, x))
    ensures TermsScore(s1, terms, peso) == TermsScore(s2, terms, peso)
    decreases |terms|
  {
    if terms != [] {
      assert terms[0] in terms;
      TermsSamePresence(s1, s2, terms[1..], peso);
    }
  }

  /**
   * The score depends only on which keywords occur as whole words: two texts with the same
   * keywords score the same, however often each keyword is repeated.
   */
  lemma {:induction false} SamePresenceSameScore(s1: string, s2: string, cats: seq<Category>)
    requires forall c, x :: c in cats && x in c.termos ==> (ContainsWord(s1, x) <==> ContainsWord(s2, x))
    ensures CategoriesScore(s1, cats) == CategoriesScore(s2, cats)
    decreases |cats|
  {
    if cats != [] {
      assert cats[0] in cats;
      TermsSamePresence(s1, s2, cats[0].termos, cats[0].peso);
      SamePresenceSameScore(s1, s2, cats[1..]);
    }
  }

  lemma {:induction false} TermsScoreBounds(s: string, terms: seq<string>, peso: int)
    requires peso >= 0
    ensures 0 <= TermsScore(s, terms, peso) <= peso * |terms|
    decreases |terms|
  {
    if terms != [] {
      TermsScoreBounds(s, terms[1..], peso);
    }
  }

  /** With non-negative weights, `0 <= score <= sum of peso * len(termos)`. */
  lemma {:induction false} ScoreBounds(texto: Value, cats: seq<Category>)
    requires forall c :: c in cats ==> c.peso >= 0
    ensures 0 <= Score(texto, cats) <= MaxScore(cats)
  {
    CategoriesBounds(if texto.PyStr? then Text.Lower(texto.s) else "", cats);
  }

  lemma {:induction false} CategoriesBounds(s: string, cats: seq<Category>)
    requires forall c :: c in cats ==> c.peso >= 0
    ensures 0 <= CategoriesScore(s, cats) <= MaxScore(cats)
    decreases |cats|
  {
    if cats != [] {
      assert cats[0] in cats;
      TermsScoreBounds(s, cats[0].termos, cats[0].peso);
      CategoriesBounds(s, cats[1..]);
    }
  }

  /** Lower-casing a text first does not change its score. */
  lemma LowerSameScore(s: string, cats: seq<Category>)
    ensures Score(PyStr(Text.Lower(s)), cats) == Score(PyStr(s), cats)
  {
    Text.LowerIdempotent(s);
  }

  /** The weights of the shipped table are non-negative, and its highest score is 5*28 + 3*14 + 2*10. */
  lemma ShippedMaxScore()
    ensures forall c :: c in RelevanceKeywords ==> c.peso >= 0
    ensures MaxScore(RelevanceKeywords) == 202
  {
    assert |Marcas| == 28 && |Campanhas| == 14 && |Impacto| == 10;
    assert RelevanceKeywords[1..] == [Category(Campanhas, 3), Category(Impacto, 2)];
    assert RelevanceKeywords[1..][1..] == [Category(Impacto, 2)];
    assert MaxScore([Category(Impacto, 2)]) == 20;
  }

  /** calcular_score: one pass over the categories and, in each, over its terms. */
  method CalcularScore(texto: Value, cats: seq<Category>) returns (score: int)
    ensures score == Score(texto, cats)
  {
    if !texto.PyStr? {
      return 0;
    }
    score := 0;
    var textoLower := Text.Lower(texto.s);
    for i := 0 to |cats|
      invariant score + CategoriesScore(textoLower, cats[i..]) == CategoriesScore(textoLower, cats)
    {
      var peso := cats[i].peso;
      var termos := cats[i].termos;
      assert cats[i..] == [cats[i]] + cats[i + 1..];
      for j := 0 to |termos|
        invariant score + TermsScore(textoLower, termos[j..], peso) + CategoriesScore(textoLower, cats[i + 1..])
          == CategoriesScore(textoLower, cats)
      {
        assert termos[j..] == [termos[j]] + termos[j + 1..];
        if ContainsWord(textoLower, termos[j]) {
          score := score + peso;
        }
      }
    }
  }

  // ---------------------------------------------------------------------------------------
  // The worked example: "Google lança nova campanha" scores 5 + 3 + 3

  const Example: string := "Google lança nova campanha"
  const ExampleLower: string := "google lança nova campanha"

  lemma ExampleLowered()
    ensures Text.Lower(Example) == ExampleLower
  {
    var l := Text.Lower(Example);
    forall i | 0 <= i < |Example| ensures l[i] == ExampleLower[i] {
    }
  }

  /** In the lower-cased example, words start at 0, 7, 13 and 18. */
  lemma ExampleWordStarts(p: int)
    requires 0 <= p < |ExampleLower| && BoundaryAt(ExampleLower, p) && Text.IsWordChar(ExampleLower[p])
    ensures p == 0 || p == 7 || p == 13 || p == 18
  {
  }

  /** `t` fits in the example at `p` and agrees with it on its first two characters. */
  predicate StartsLike(t: string, p: nat)
    requires |t| >= 2 && p + 1 < |ExampleLower|
  {
    p + |t| <= |ExampleLower| && t[0] == ExampleLower[p] && t[1] == ExampleLower[p + 1]
  }

  /** A keyword that cannot occur in the example, by its first two characters alone. */
  predicate Excluded(t: string) {
    |t| >= 2 && Text.IsWordChar(t[0])
    && !StartsLike(t, 0) && !StartsLike(t, 7) && !StartsLike(t, 13) && !StartsLike(t, 18)
  }

  /** A keyword found in the example is found where one of its words starts. */
  lemma ExampleStart(t: string) returns (p: nat)
    requires |t| >= 2 && Text.IsWordChar(t[0]) && ContainsWord(ExampleLower, t)
    ensures (p == 0 || p == 7 || p == 13 || p == 18) && p <= |ExampleLower| && WordAt(ExampleLower, t, p)
    ensures StartsLike(t, p)
  {
    var s := ExampleLower;
    p :| 0 <= p <= |s| && WordAt(s, t, p);
    assert s[p] == s[p..p + |t|][0] == t[0];
    assert s[p + 1] == s[p..p + |t|][1] == t[1];
    ExampleWordStarts(p);
  }

  lemma ExampleFound(t: string, p: nat)
    requires (t, p) == ("google", 0) || (t, p) == ("lança", 7) || (t, p) == ("campanha", 18)
    ensures ContainsWord(ExampleLower, t)
  {
    if p == 0 {
      GoogleAt(t);
    } else if p == 7 {
      LancaAt(t);
    } else {
      CampanhaAt(t);
    }
  }

  lemma GoogleAt(t: string)
    requires t == "google"
    ensures WordAt(ExampleLower, t, 0)
  {
    assert ExampleLower[0..6] == t;
  }

  lemma LancaAt(t: string)
    requires t == "lança"
    ensures WordAt(ExampleLower, t, 7)
  {
    assert ExampleLower[7..12] == t;
  }

  lemma CampanhaAt(t: string)
    requires t == "campanha"
    ensures WordAt(ExampleLower, t, 18)
  {
    assert ExampleLower[18..26] == t;
  }

  /** At 7 the example has "lança nova", not "lançamento". */
  lemma LancamentoAbsent(t: string)
    requires t == "lançamento"
    ensures !ContainsWord(ExampleLower, t)
  {
    assert ExampleLower[7..17][5] == ' ' && t[5] == 'm';
    if ContainsWord(ExampleLower, t) {
      var p := ExampleStart(t);
      assert false;
    }
  }

  /** At 13 the example has "nova", not "novo". */
  lemma NovoAbsent(t: string)
    requires t == "novo"
    ensures !ContainsWord(ExampleLower, t)
  {
    assert ExampleLower[13..17][3] == 'a' && t[3] == 'o';
    if ContainsWord(ExampleLower, t) {
      var p := ExampleStart(t);
      assert false;
    }
  }

  lemma LancamentoNovoAbsent()
    ensures !ContainsWord(ExampleLower, "lançamento") && !ContainsWord(ExampleLower, "novo")
  {
    LancamentoAbsent("lançamento");
    NovoAbsent("novo");
  }

  /** A keyword the example does not contain, as the two lemmas above show. */
  predicate AbsentTerm(t: string) {
    t == "lançamento" || t == "novo" || Excluded(t)
  }

  lemma {:induction false} ExampleAbsent(terms: seq<string>, i: nat, peso: int)
    requires i <= |terms| && forall k :: i <= k < |terms| ==> AbsentTerm(terms[k])
    ensures TermsScore(ExampleLower, terms[i..], peso) == 0
    decreases |terms| - i
  {
    if i < |terms| {
      LancamentoNovoAbsent();
      if Excluded(terms[i]) && ContainsWord(ExampleLower, terms[i]) {
        var p := ExampleStart(terms[i]);
        assert false;
      }
      assert terms[i..][1..] == terms[i + 1..];
      ExampleAbsent(terms, i + 1, peso);
    }
  }

  // The example text contains none of the brand terms after "google". The terms are checked a
  // few at a time, by index, so that each proof obligation stays small.
  lemma MarcasAbsent1(i: nat)
    requires 1 <= i < 6
    ensures AbsentTerm(Marcas[i])
  {
    if i == 1 {
    } else if i == 2 {
    } else if i == 3 {
    } else if i == 4 {
    } else if i == 5 {
    }
  }

  lemma MarcasAbsent2(i: nat)
    requires 6 <= i < 11
    ensures AbsentTerm(Marcas[i])
  {
    if i == 6 {
    } else if i == 7 {
    } else if i == 8 {
    } else if i == 9 {
    } else if i == 10 {
    }
  }

  lemma MarcasAbsent3(i: nat)
    requires 11 <= i < 16
    ensures AbsentTerm(Marcas[i])
  {
    if i == 11 {
    } else if i == 12 {
    } else if i == 13 {
    } else if i == 14 {
    } else if i == 15 {
    }
  }

  lemma MarcasAbsent4(i: nat)
    requires 16 <= i < 21
    ensures AbsentTerm(Marcas[i])
  {
    if i == 16 {
    } else if i == 17 {
    } else if i == 18 {
    } else if i == 19 {
    } else if i == 20 {
    }
  }

  lemma MarcasAbsent5(i: nat)
    requires 21 <= i < 25
    ensures AbsentTerm(Marcas[i])
  {
    if i == 21 {
    } else if i == 22 {
    } else if i == 23 {
    } else if i == 24 {
    }
  }

  lemma MarcasAbsent6(i: nat)
    requires 25 <= i < 28
    ensures AbsentTerm(Marcas[i])
  {
    if i == 25 {
    } else if i == 26 {
    } else if i == 27 {
    }
  }

  lemma MarcasAbsent()
    ensures forall k :: 1 <= k < |Marcas| ==> AbsentTerm(Marcas[k])
  {
    forall k | 1 <= k < |Marcas| ensures AbsentTerm(Marcas[k]) {
      if k < 6 {
        MarcasAbsent1(k);
      } else if k < 11 {
        MarcasAbsent2(k);
      } else if k < 16 {
        MarcasAbsent3(k);
      } else if k < 21 {
        MarcasAbsent4(k);
      } else if k < 25 {
        MarcasAbsent5(k);
      } else {
        MarcasAbsent6(k);
      }
    }
  }

  /** One step of TermsScore, for a keyword list known only by name. */
  lemma TermsScoreHead(s: string, terms: seq<string>, peso: int)
    requires terms != []
    ensures TermsScore(s, terms, peso) == (if ContainsWord(s, terms[0]) then peso else 0) + TermsScore(s, terms[1..], peso)
  {
  }

  /** A keyword the example contains adds its weight. */
  lemma FoundStep(terms: seq<string>, p: nat, peso: int)
    requires terms != []
    requires (terms[0], p) == ("google", 0) || (terms[0], p) == ("lança", 7) || (terms[0], p) == ("campanha", 18)
    ensures TermsScore(ExampleLower, terms, peso) == peso + TermsScore(ExampleLower, terms[1..], peso)
  {
    ExampleFound(terms[0], p);
  }

  lemma LancamentoStep(terms: seq<string>, peso: int)
    requires terms != [] && terms[0] == "lançamento"
    ensures TermsScore(ExampleLower, terms, peso) == TermsScore(ExampleLower, terms[1..], peso)
  {
    LancamentoNovoAbsent();
  }

  lemma MarcasTail(terms: seq<string>)
    requires terms == Marcas
    ensures TermsScore(ExampleLower, terms[1..], 5) == 0
  {
    MarcasAbsent();
    ExampleAbsent(terms, 1, 5);
  }

  lemma ExampleMarcas(terms: seq<string>)
    requires terms == Marcas
    ensures TermsScore(ExampleLower, terms, 5) == 5
  {
    assert terms[0] == "google";
    FoundStep(terms, 0, 5);
    MarcasTail(terms);
  }

  lemma CampanhasAbsent1(i: nat)
    requires 3 <= i < 8
    ensures AbsentTerm(Campanhas[i])
  {
    if i == 3 {
    } else if i == 4 {
    } else if i == 5 {
    } else if i == 6 {
    } else if i == 7 {
    }
  }

  lemma CampanhasAbsent2(i: nat)
    requires 8 <= i < 14
    ensures AbsentTerm(Campanhas[i])
  {
    if i == 8 {
    } else if i == 9 {
    } else if i == 10 {
    } else if i == 11 {
    } else if i == 12 {
    } else if i == 13 {
    }
  }

  lemma CampanhasTail(terms: seq<string>)
    requires terms == Campanhas
    ensures TermsScore(ExampleLower, terms[3..], 3) == 0
  {
    forall k | 3 <= k < |terms| ensures AbsentTerm(terms[k]) {
      if k < 8 {
        CampanhasAbsent1(k);
      } else {
        CampanhasAbsent2(k);
      }
    }
    ExampleAbsent(terms, 3, 3);
  }

  lemma ExampleCampanhas(terms: seq<string>)
    requires terms == Campanhas
    ensures TermsScore(ExampleLower, terms, 3) == 6
  {
    assert terms[0] == "campanha" && terms[1] == "lançamento" && terms[2] == "lança";
    CampanhasFirstThree(terms);
    CampanhasTail(terms);
  }

  /** "campanha" and "lança" are found, "lançamento" is not. */
  lemma CampanhasFirstThree(terms: seq<string>)
    requires |terms| >= 3 && terms[0] == "campanha" && terms[1] == "lançamento" && terms[2] == "lança"
    ensures TermsScore(ExampleLower, terms, 3) == 6 + TermsScore(ExampleLower, terms[3..], 3)
  {
    assert terms[1..][1..] == terms[2..];
    assert terms[2..][1..] == terms[3..];
    FoundStep(terms, 18, 3);
    LancamentoStep(terms[1..], 3);
    FoundStep(terms[2..], 7, 3);
  }

  lemma ImpactoAbsent1(i: nat)
    requires 0 <= i < 5
    ensures AbsentTerm(Impacto[i])
  {
    if i == 0 {
    } else if i == 1 {
    } else if i == 2 {
    } else if i == 3 {
    } else if i == 4 {
    }
  }

  lemma ImpactoAbsent2(i: nat)
    requires 5 <= i < 10
    ensures AbsentTerm(Impacto[i])
  {
    if i == 5 {
    } else if i == 6 {
    } else if i == 7 {
    } else if i == 8 {
    } else if i == 9 {
    }
  }

  lemma ExampleImpacto(terms: seq<string>)
    requires terms == Impacto
    ensures TermsScore(ExampleLower, terms, 2) == 0
  {
    forall k | 0 <= k < |terms| ensures AbsentTerm(terms[k]) {
      if k < 5 {
        ImpactoAbsent1(k);
      } else {
        ImpactoAbsent2(k);
      }
    }
    ExampleAbsent(terms, 0, 2);
    assert terms[0..] == terms;
  }

  lemma CategoriesScoreHead(s: string, cats: seq<Category>)
    requires cats != []
    ensures CategoriesScore(s, cats) == TermsScore(s, cats[0].termos, cats[0].peso) + CategoriesScore(s, cats[1..])
  {
  }

  lemma ShippedParts(cats: seq<Category>)
    requires cats == RelevanceKeywords
    ensures |cats| == 3 && cats[0].termos == Marcas && cats[1].termos == Campanhas && cats[2].termos == Impacto
    ensures cats[0].peso == 5 && cats[1].peso == 3 && cats[2].peso == 2
  {
  }

  lemma ExampleCategories(cats: seq<Category>)
    requires |cats| == 3
    requires TermsScore(ExampleLower, cats[0].termos, cats[0].peso) == 5
    requires TermsScore(ExampleLower, cats[1].termos, cats[1].peso) == 6
    requires TermsScore(ExampleLower, cats[2].termos, cats[2].peso) == 0
    ensures CategoriesScore(ExampleLower, cats) == 11
  {
    CategoriesScoreHead(ExampleLower, cats);
    CategoriesScoreHead(ExampleLower, cats[1..]);
    CategoriesScoreHead(ExampleLower, cats[1..][1..]);
    assert cats[1..][1..][1..] == [];
  }

  /** calcular_score("Google lança nova campanha") == 5 + 3 + 3 under the shipped table. */
  lemma ExampleScore()
    ensures Score(PyStr(Example), RelevanceKeywords) == 11
  {
    var cats := RelevanceKeywords;
    ShippedParts(cats);
    ExampleMarcas(cats[0].termos);
    ExampleCampanhas(cats[1].termos);
    ExampleImpacto(cats[2].termos);
    ExampleCategories(cats);
    ExampleLowered();
  }

  // ---------------------------------------------------------------------------------------
  // selecionar_noticias_estrategicas

  /** A row of `df_cluster`: a news item with a summary, and the cluster label it was given. */
  datatype Candidate = Candidate(fonte: string, titulo: string, link: string, resumo: string, cluster: Wrappers.Option<int>)

  /** A candidate with its `relevance_score` and its position in `df_cluster`. */
  datatype Scored = Scored(row: Candidate, relevanceScore: int, position: nat)

  /** `calcular_score(row['titulo'] + ' ' + row['resumo'])`. */
  function RelevanceOf(c: Candidate): int {
    Score(PyStr(c.titulo + " " + c.resumo), RelevanceKeywords)
  }

  /** `df_cluster['relevance_score'] = df_cluster.apply(...)`. */
  function WithScores(cands: seq<Candidate>): (r: seq<Scored>)
    ensures |r| == |cands|
    ensures forall i :: 0 <= i < |cands| ==> r[i] == Scored(cands[i], RelevanceOf(cands[i]), i)
  {
    seq(|cands|, i requires 0 <= i < |cands| => Scored(cands[i], RelevanceOf(cands[i]), i))
  }

  function ScoreKey(x: Scored): int { x.relevanceScore }

  function PositionKey(x: Scored): int { x.position }

  /** `nlargest(n, 'relevance_score')` with `keep='first'`; pandas returns no rows for `n <= 0`. */
  function NLargest(xs: seq<Scored>, n: int): seq<Scored> {
    if n <= 0 then [] else Seqs.Take(Ordering.SortBy(ScoreKey, PositionKey, true, xs), n)
  }

  /** selecionar_noticias_estrategicas: nothing for an empty table, else the top `top_n`. */
  function Select(cands: seq<Candidate>, topN: int): seq<Scored> {
    if cands == [] then [] else NLargest(WithScores(cands), topN)
  }

  /** Candidate `i` is among the selected rows. */
  predicate Chosen(sel: seq<Scored>, i: int) {
    exists k :: 0 <= k < |sel| && sel[k].position == i
  }

  lemma TakeSubMultiset<T>(s: seq<T>, m: nat)
    requires m <= |s|
    ensures multiset(s[..m]) <= multiset(s)
  {
    assert s == s[..m] + s[m..];
  }

  /**
   * The selection has min(top_n, len(candidates)) rows (none when `top_n <= 0`), each a
   * candidate with its score, none twice; the rows are in non-increasing score order with ties
   * in table order, and no candidate left out scores higher than a selected one, or equally
   * while coming earlier.
   */
  lemma SelectionSpec(cands: seq<Candidate>, topN: int)
    ensures var sel := Select(cands, topN);
      |sel| == (if topN <= 0 then 0 else Seqs.Min(topN, |cands|))
      && multiset(sel) <= multiset(WithScores(cands))
      && (forall k :: 0 <= k < |sel| ==>
            sel[k].position < |cands| && sel[k].row == cands[sel[k].position]
            && sel[k].relevanceScore == RelevanceOf(sel[k].row))
      && Ordering.Sorted(ScoreKey, PositionKey, true, sel)
      && (forall i, k :: 0 <= i < |cands| && !Chosen(sel, i) && 0 <= k < |sel| ==>
            RelevanceOf(cands[i]) < sel[k].relevanceScore
            || (RelevanceOf(cands[i]) == sel[k].relevanceScore && sel[k].position < i))
  {
    if cands != [] && topN > 0 {
      SelectedRows(cands, topN);
      SelectedBest(cands, topN);
    }
  }

  /** The selected rows are scored candidates, none twice, best first. */
  lemma SelectedRows(cands: seq<Candidate>, topN: int)
    requires cands != [] && topN > 0
    ensures var sel := Select(cands, topN);
      |sel| == Seqs.Min(topN, |cands|)
      && multiset(sel) <= multiset(WithScores(cands))
      && (forall k :: 0 <= k < |sel| ==>
            sel[k].position < |cands| && sel[k].row == cands[sel[k].position]
            && sel[k].relevanceScore == RelevanceOf(sel[k].row))
      && Ordering.Sorted(ScoreKey, PositionKey, true, sel)
  {
    SelectedPrefix(cands, topN);
    SelectedAreScored(cands, topN);
  }

  /** The selection is a prefix of the sorted scored table: a sub-multiset, still sorted. */
  lemma SelectedPrefix(cands: seq<Candidate>, topN: int)
    requires cands != [] && topN > 0
    ensures var sel := Select(cands, topN);
      |sel| == Seqs.Min(topN, |cands|)
      && multiset(sel) <= multiset(WithScores(cands))
      && Ordering.Sorted(ScoreKey, PositionKey, true, sel)
  {
    var sel := Select(cands, topN);
    var ws := WithScores(cands);
    var sorted := Ordering.SortBy(ScoreKey, PositionKey, true, ws);
    Ordering.SortBySorted(ScoreKey, PositionKey, true, ws);
    var m := |sel|;
    assert sel == sorted[..m];
    TakeSubMultiset(sorted, m);
  }

  /** Every selected row is the scored candidate at its position. */
  lemma SelectedAreScored(cands: seq<Candidate>, topN: int)
    requires cands != [] && topN > 0
    ensures var sel := Select(cands, topN);
      forall k :: 0 <= k < |sel| ==>
        sel[k].position < |cands| && sel[k].row == cands[sel[k].position]
        && sel[k].relevanceScore == RelevanceOf(sel[k].row)
  {
    var sel := Select(cands, topN);
    var ws := WithScores(cands);
    var sorted := Ordering.SortBy(ScoreKey, PositionKey, true, ws);
    var m := |sel|;
    assert sel == sorted[..m];
    TakeSubMultiset(sorted, m);
    forall k | 0 <= k < m
      ensures sel[k].position < |cands| && sel[k].row == cands[sel[k].position]
      ensures sel[k].relevanceScore == RelevanceOf(sel[k].row)
    {
      assert sel[k] in multiset(ws);
      var p :| 0 <= p < |ws| && ws[p] == sel[k];
    }
  }

  /** No candidate left out beats a selected row, on score and then on table position. */
  lemma SelectedBest(cands: seq<Candidate>, topN: int)
    requires cands != [] && topN > 0
    ensures var sel := Select(cands, topN);
      forall i, k :: 0 <= i < |cands| && !Chosen(sel, i) && 0 <= k < |sel| ==>
        RelevanceOf(cands[i]) < sel[k].relevanceScore
        || (RelevanceOf(cands[i]) == sel[k].relevanceScore && sel[k].position < i)
  {
    var sel := Select(cands, topN);
    var ws := WithScores(cands);
    var sorted := Ordering.SortBy(ScoreKey, PositionKey, true, ws);
    Ordering.SortBySorted(ScoreKey, PositionKey, true, ws);
    var m := |sel|;
    assert sel == sorted[..m];
    forall i, k | 0 <= i < |cands| && !Chosen(sel, i) && 0 <= k < m
      ensures RelevanceOf(cands[i]) < sel[k].relevanceScore
        || (RelevanceOf(cands[i]) == sel[k].relevanceScore && sel[k].position < i)
    {
      assert ws[i] in multiset(sorted);
      var q :| 0 <= q < |sorted| && sorted[q] == ws[i];
      assert forall j :: 0 <= j < m ==> sorted[j].position != i by {
        forall j | 0 <= j < m ensures sorted[j].position != i {
          assert sel[j] == sorted[j];
        }
      }
      assert !Ordering.Precedes(ScoreKey, PositionKey, true, sorted[q], sorted[k]);
      assert sel[k].position != i;
    }
  }

  /** An empty candidate table gives an empty selection. */
  lemma EmptySelection(topN: int)
    ensures Select([], topN) == []
  {
  }

  /** The method: one score per row, then `nlargest`. */
  method SelecionarNoticiasEstrategicas(cands: seq<Candidate>, topN: int) returns (sel: seq<Scored>)
    ensures sel == Select(cands, topN)
  {
    if |cands| == 0 {
      return [];
    }
    var scored: seq<Scored> := [];
    for i := 0 to |cands|
      invariant |scored| == i
      invariant forall k :: 0 <= k < i ==> scored[k] == Scored(cands[k], RelevanceOf(cands[k]), k)
    {
      var s := CalcularScore(PyStr(cands[i].titulo + " " + cands[i].resumo), RelevanceKeywords);
      scored := scored + [Scored(cands[i], s, i)];
    }
    assert scored == WithScores(cands);
    sel := NLargest(scored, topN);
  }
}
