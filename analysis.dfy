/**
 * The `/analyze-skills` handler: per-category strength labels, the category
 * skills the user lacks, the gated and capped recommendation list, and the
 * three best-scoring categories.
 *
 * The sentence-embedding model and the cosine similarity are outside the
 * model: `similarity` stands for "encode both texts and take the cosine of
 * the two embeddings", applied to the space-joined user skills and the
 * space-joined skills of one category.
 */
module SkillAnalysis {
  import opened Wrappers
  import opened Text
  import opened Seqs
  import opened Ranking

  /** One entry of the fixed category table. */
  datatype Category = Category(name: string, skills: seq<string>)

  datatype Strength = Weak | Moderate | Strong

  /** One value of `category_analysis`. */
  datatype CategoryResult = CategoryResult(score: real, strength: Strength)

  datatype AnalysisResponse = AnalysisResponse(
    categoryAnalysis: map<string, CategoryResult>,
    topCategories: seq<Scored>,
    recommendedSkills: seq<string>,
    totalSkillsAnalyzed: nat)

  /** The embedding similarity of the user's text and a category's text. */
  type Similarity = (string, string) -> real

  const SkillsRequired := "Skills list is required"

  /** A score above this is Strong. */
  const StrongAbove: real := 0.7
  /** A score above this (and not Strong) is Moderate. */
  const ModerateAbove: real := 0.5
  /** Only categories scoring below this recommend skills. */
  const RecommendBelow: real := 0.7
  /** At most this many recommendations come from one category. */
  const PerCategory: nat := 2
  /** At most this many recommendations are returned. */
  const MaxRecommendations: nat := 10
  /** At most this many top categories are returned. */
  const TopCount: nat := 3

  const ProgrammingLanguages: seq<string> :=
    ["Python", "Java", "JavaScript", "TypeScript", "C++", "Go", "Rust", "Swift", "Kotlin"]
  const Frontend: seq<string> :=
    ["React", "Vue", "Angular", "HTML", "CSS", "Tailwind CSS", "Next.js", "Redux"]
  const Backend: seq<string> :=
    ["Node.js", "Django", "Flask", "FastAPI", "Spring Boot", "Express.js", "REST API", "GraphQL"]
  const Databases: seq<string> :=
    ["PostgreSQL", "MongoDB", "MySQL", "Redis", "Elasticsearch", "SQL", "NoSQL"]
  const CloudDevOps: seq<string> :=
    ["AWS", "Azure", "GCP", "Docker", "Kubernetes", "Terraform", "CI/CD", "Jenkins", "Git"]
  const DataScience: seq<string> :=
    ["Machine Learning", "Deep Learning", "Data Science", "AI", "NLP", "TensorFlow", "PyTorch", "Pandas"]
  const ToolsOthers: seq<string> :=
    ["Git", "Linux", "Agile", "Scrum", "Microservices", "System Design"]

  /** The category table, in its declaration order. */
  const Table: seq<Category> := [
    Category("Programming Languages", ProgrammingLanguages),
    Category("Frontend", Frontend),
    Category("Backend", Backend),
    Category("Databases", Databases),
    Category("Cloud & DevOps", CloudDevOps),
    Category("Data Science", DataScience),
    Category("Tools & Others", ToolsOthers)
  ]

  // ---------------------------------------------------------------- strength

  /** The order of the labels: Weak below Moderate below Strong. */
  function Rank(s: Strength): nat
  {
    match s
    case Weak => 0
    case Moderate => 1
    case Strong => 2
  }

  /** The strength label of a (full-precision) score. */
  function Classify(score: real): (r: Strength)
    ensures r == Strong <==> score > StrongAbove
    ensures r == Moderate <==> ModerateAbove < score <= StrongAbove
    ensures r == Weak <==> score <= ModerateAbove
  {
    if score > StrongAbove then Strong else if score > ModerateAbove then Moderate else Weak
  }

  /** A higher score never gets a lower label. */
  lemma ClassifyMonotone(a: real, b: real)
    requires a <= b
    ensures Rank(Classify(a)) <= Rank(Classify(b))
  {
  }

  // ---------------------------------------------------------- missing skills

  /** `x` equals one of the user's skills once both are lower-cased. */
  ghost predicate MatchesCaseInsensitively(x: string, userSkills: seq<string>)
  {
    exists u :: u in userSkills && Lower(u) == Lower(x)
  }

  /** `[s.lower() for s in skills]`. */
  function LowerAll(xs: seq<string>): (r: seq<string>)
    ensures |r| == |xs|
    ensures forall i :: 0 <= i < |xs| ==> r[i] == Lower(xs[i])
  {
    if xs == [] then [] else [Lower(xs[0])] + LowerAll(xs[1..])
  }

  /** Membership in the lower-cased list is a case-insensitive match. */
  lemma LoweredMembership(x: string, xs: seq<string>)
    ensures Lower(x) in LowerAll(xs) <==> MatchesCaseInsensitively(x, xs)
  {
  }

  /** `[s for s in category_skills if s.lower() not in lowered]`. */
  function MissingFrom(categorySkills: seq<string>, lowered: seq<string>): (r: seq<string>)
    ensures |r| <= |categorySkills|
  {
    if categorySkills == [] then []
    else
      var rest := MissingFrom(categorySkills[1..], lowered);
      if Lower(categorySkills[0]) !in lowered then [categorySkills[0]] + rest else rest
  }

  /** The filter keeps order and keeps exactly the skills whose lower-case form is not listed. */
  lemma {:induction false} MissingFromIff(categorySkills: seq<string>, lowered: seq<string>, x: string)
    ensures IsSubsequence(MissingFrom(categorySkills, lowered), categorySkills)
    ensures x in MissingFrom(categorySkills, lowered) <==> x in categorySkills && Lower(x) !in lowered
  {
    if categorySkills != [] {
      MissingFromIff(categorySkills[1..], lowered, x);
      var r := MissingFrom(categorySkills, lowered);
      var rest := MissingFrom(categorySkills[1..], lowered);
      if Lower(categorySkills[0]) !in lowered {
        assert r == [categorySkills[0]] + rest;
        assert r[1..] == rest;
      }
      assert x in categorySkills <==> x == categorySkills[0] || x in categorySkills[1..];
    }
  }

  /** The category skills the user lacks: `missing` for one category. */
  function Missing(categorySkills: seq<string>, userSkills: seq<string>): (r: seq<string>)
    ensures |r| <= |categorySkills|
  {
    MissingFrom(categorySkills, LowerAll(userSkills))
  }

  /**
   * The missing list keeps the category's order and holds exactly the
   * category skills with no case-insensitive match among the user's skills.
   */
  lemma MissingIff(categorySkills: seq<string>, userSkills: seq<string>, x: string)
    ensures IsSubsequence(Missing(categorySkills, userSkills), categorySkills)
    ensures x in Missing(categorySkills, userSkills) <==>
      x in categorySkills && !MatchesCaseInsensitively(x, userSkills)
  {
    LoweredMembership(x, userSkills);
    MissingFromIff(categorySkills, LowerAll(userSkills), x);
  }

  // --------------------------------------------------------- recommendations

  /** `" ".join(skills)`. */
  function UserText(skills: seq<string>): string
  {
    Join(" ", skills)
  }

  /** `" ".join(category_skills)`. */
  function CategoryText(c: Category): string
  {
    Join(" ", c.skills)
  }

  /** The score of one category. */
  function ScoreOf(c: Category, skills: seq<string>, similarity: Similarity): real
  {
    similarity(UserText(skills), CategoryText(c))
  }

  /** A category recommends when it lacks something and scores below the threshold. */
  predicate Gated(missing: seq<string>, score: real)
  {
    missing != [] && score < RecommendBelow
  }

  /** `missing[:2]` when the category is gated, nothing otherwise. */
  function Contribution(missing: seq<string>, score: real): (r: seq<string>)
    ensures |r| <= PerCategory && |r| <= |missing| && r == missing[..|r|]
    ensures r != [] <==> Gated(missing, score)
  {
    if Gated(missing, score) then missing[..Min(PerCategory, |missing|)] else []
  }

  /** What category `c` adds to `recommended_skills`. */
  function Added(c: Category, skills: seq<string>, similarity: Similarity): (r: seq<string>)
    ensures |r| <= PerCategory
  {
    Contribution(Missing(c.skills, skills), ScoreOf(c, skills, similarity))
  }

  /** The `(category, score)` items of `category_scores`, in table order. */
  function Scores(cats: seq<Category>, skills: seq<string>, similarity: Similarity): (r: seq<Scored>)
    ensures |r| == |cats|
    ensures forall i :: 0 <= i < |cats| ==> r[i] == (cats[i].name, ScoreOf(cats[i], skills, similarity))
  {
    if cats == [] then []
    else
      var last := cats[|cats| - 1];
      Scores(cats[..|cats| - 1], skills, similarity) + [(last.name, ScoreOf(last, skills, similarity))]
  }

  /**
   * `recommended_skills` before de-duplication: at most two per category.
   * `RecommendationsIff` gives its members and `RecommendationsNotOwned` shows
   * that none of them is a skill the user already has.
   */
  function Recommendations(cats: seq<Category>, skills: seq<string>, similarity: Similarity)
    : (r: seq<string>)
    ensures |r| <= PerCategory * |cats|
  {
    if cats == [] then []
    else
      var last := cats[|cats| - 1];
      var prev := Recommendations(cats[..|cats| - 1], skills, similarity);
      prev + Added(last, skills, similarity)
  }

  /** `x` is among what category `c` adds to the recommendations. */
  predicate RecommendsFrom(c: Category, skills: seq<string>, similarity: Similarity, x: string)
  {
    x in Added(c, skills, similarity)
  }

  /** A category adds a skill exactly when it is gated and the skill is among its first two missing. */
  lemma ContributionIff(missing: seq<string>, score: real, x: string)
    ensures x in Contribution(missing, score) <==>
      Gated(missing, score) && x in missing[..Min(PerCategory, |missing|)]
  {
  }

  /** A skill is recommended exactly when some category adds it. */
  lemma {:induction false} RecommendationsIff(
    cats: seq<Category>, skills: seq<string>, similarity: Similarity, x: string)
    ensures x in Recommendations(cats, skills, similarity) <==>
      exists k :: 0 <= k < |cats| && RecommendsFrom(cats[k], skills, similarity, x)
  {
    if cats != [] {
      var n := |cats| - 1;
      var init := cats[..n];
      RecommendationsIff(init, skills, similarity, x);
      var added := Added(cats[n], skills, similarity);
      assert Recommendations(cats, skills, similarity) == Recommendations(init, skills, similarity) + added;
      if x in Recommendations(cats, skills, similarity) {
        if x in added {
          assert RecommendsFrom(cats[n], skills, similarity, x);
        } else {
          var k :| 0 <= k < n && RecommendsFrom(init[k], skills, similarity, x);
          assert init[k] == cats[k];
        }
      }
      if exists k :: 0 <= k < |cats| && RecommendsFrom(cats[k], skills, similarity, x) {
        var k :| 0 <= k < |cats| && RecommendsFrom(cats[k], skills, similarity, x);
        if k < n {
          assert init[k] == cats[k];
        }
      }
    }
  }

  /** No recommendation matches one of the user's skills, case-insensitively. */
  lemma RecommendationsNotOwned(
    cats: seq<Category>, skills: seq<string>, similarity: Similarity, x: string)
    requires x in Recommendations(cats, skills, similarity)
    ensures !MatchesCaseInsensitively(x, skills)
  {
    RecommendationsIff(cats, skills, similarity, x);
    var k :| 0 <= k < |cats| && RecommendsFrom(cats[k], skills, similarity, x);
    var missing := Missing(cats[k].skills, skills);
    ContributionIff(missing, ScoreOf(cats[k], skills, similarity), x);
    assert x in missing;
    MissingIff(cats[k].skills, skills, x);
  }

  /** The recommendations of a prefix of the table are a prefix of the recommendations. */
  lemma {:induction false} RecommendationsPrefix(
    cats: seq<Category>, skills: seq<string>, similarity: Similarity, n: nat)
    requires n <= |cats|
    ensures var p := Recommendations(cats[..n], skills, similarity);
      |p| <= |Recommendations(cats, skills, similarity)|
      && Recommendations(cats, skills, similarity)[..|p|] == p
    decreases |cats| - n
  {
    if n < |cats| {
      RecommendationsPrefix(cats, skills, similarity, n + 1);
      assert cats[..n + 1][..n] == cats[..n];
    } else {
      assert cats[..n] == cats;
    }
  }

  /**
   * When two categories both add the same skill, the list before
   * de-duplication holds it twice.
   */
  lemma SharedRecommendationRepeats(
    cats: seq<Category>, skills: seq<string>, similarity: Similarity, k: nat, l: nat, x: string)
    requires k < l < |cats|
    requires RecommendsFrom(cats[k], skills, similarity, x)
    requires RecommendsFrom(cats[l], skills, similarity, x)
    ensures !NoDuplicates(Recommendations(cats, skills, similarity))
  {
    var r := Recommendations(cats, skills, similarity);
    var a := ContributionPosition(cats, skills, similarity, k, x);
    var b := ContributionPosition(cats, skills, similarity, l, x);
    RecommendationsPrefix(cats[..l], skills, similarity, k + 1);
    assert cats[..l][..k + 1] == cats[..k + 1];
    assert a < b;
  }

  /**
   * Where category `k`'s addition lands in the full list: after everything
   * the earlier categories added and before anything a later one adds.
   */
  lemma ContributionPosition(
    cats: seq<Category>, skills: seq<string>, similarity: Similarity, k: nat, x: string)
    returns (pos: nat)
    requires k < |cats|
    requires RecommendsFrom(cats[k], skills, similarity, x)
    ensures pos < |Recommendations(cats, skills, similarity)|
    ensures Recommendations(cats, skills, similarity)[pos] == x
    ensures |Recommendations(cats[..k], skills, similarity)| <= pos
    ensures pos < |Recommendations(cats[..k + 1], skills, similarity)|
  {
    var pk := Recommendations(cats[..k], skills, similarity);
    var qk := Recommendations(cats[..k + 1], skills, similarity);
    var ck := Added(cats[k], skills, similarity);
    assert cats[..k + 1][..k] == cats[..k];
    assert qk == pk + ck;
    var i :| 0 <= i < |ck| && ck[i] == x;
    pos := |pk| + i;
    RecommendationsPrefix(cats, skills, similarity, k + 1);
    assert qk[pos] == x;
  }

  /** A category that is not gated (nothing missing, or a score of 0.7 or more) recommends nothing. */
  lemma UngatedContributesNothing(missing: seq<string>, score: real)
    requires !Gated(missing, score)
    ensures Contribution(missing, score) == []
  {
  }

  // ---------------------------------------------------------------- response

  /** The `category_analysis` dictionary: each category's score and its label. */
  function CategoryAnalysis(scores: seq<Scored>): (r: map<string, CategoryResult>)
    ensures forall name :: name in r <==> exists i :: 0 <= i < |scores| && scores[i].0 == name
    ensures forall name :: name in r ==>
      r[name].strength == Classify(r[name].score) && (name, r[name].score) in scores
  {
    if scores == [] then map[]
    else
      var last := scores[|scores| - 1];
      var prev := CategoryAnalysis(scores[..|scores| - 1]);
      assert forall p :: p in scores[..|scores| - 1] ==> p in scores;
      assert forall i :: 0 <= i < |scores| - 1 ==> scores[..|scores| - 1][i] == scores[i];
      prev[last.0 := CategoryResult(last.1, Classify(last.1))]
  }

  /**
   * "Git" is listed under two categories. When both add it, it is collected
   * twice (`SharedRecommendationRepeats`). In "Cloud & DevOps" it comes ninth,
   * so that category adds it only when the user has at least seven of the
   * eight skills listed before it.
   */
  lemma GitInTwoCategories()
    ensures Table[4].name != Table[6].name
    ensures "Git" in Table[4].skills && "Git" in Table[6].skills
  {
  }

  /** The category names of the table are distinct, so `category_scores` gets one key per category. */
  lemma TableNamesDistinct()
    ensures forall i, j :: 0 <= i < j < |Table| ==> Table[i].name != Table[j].name
  {
  }

  /** With distinct names, every category's entry is its own score and that score's label. */
  lemma CategoryAnalysisExact(scores: seq<Scored>)
    requires forall i, j :: 0 <= i < j < |scores| ==> scores[i].0 != scores[j].0
    ensures forall i :: 0 <= i < |scores| ==>
      scores[i].0 in CategoryAnalysis(scores)
      && CategoryAnalysis(scores)[scores[i].0] == CategoryResult(scores[i].1, Classify(scores[i].1))
  {
  }

  /**
   * The loop of `analyze_skills` over the category table: fills
   * `category_scores` and extends `recommended_skills` in place.
   */
  method ScoreCategories(cats: seq<Category>, userSkills: seq<string>, similarity: Similarity)
    returns (categoryScores: seq<Scored>, recommended: seq<string>)
    ensures categoryScores == Scores(cats, userSkills, similarity)
    ensures recommended == Recommendations(cats, userSkills, similarity)
  {
    var userText := Join(" ", userSkills);
    categoryScores, recommended := [], [];
    for i := 0 to |cats|
      invariant categoryScores == Scores(cats[..i], userSkills, similarity)
      invariant recommended == Recommendations(cats[..i], userSkills, similarity)
    {
      var category := cats[i];
      var categoryText := Join(" ", category.skills);
      var score := similarity(userText, categoryText);
      categoryScores := categoryScores + [(category.name, score)];
      var userSkillsLower := LowerAll(userSkills);
      var missing := MissingFrom(category.skills, userSkillsLower);
      if missing != [] && score < RecommendBelow {
        recommended := recommended + missing[..Min(PerCategory, |missing|)];
      }
      assert cats[..i + 1][..i] == cats[..i];
    }
    assert cats[..|cats|] == cats;
  }

  /**
   * `analyze_skills`: 400 for a missing or empty skills list; otherwise one
   * labelled score per category, the three best categories, and at most ten
   * distinct recommendations, none of them a skill the user has.
   */
  method AnalyzeSkills(skills: Option<seq<string>>, similarity: Similarity)
    returns (r: Result<AnalysisResponse, HttpError>)
    ensures r.Failure? <==> skills.None? || skills.value == []
    ensures r.Failure? ==> r.error == HttpError(BadRequest, SkillsRequired)
    ensures r.Success? ==>
      var scores := Scores(Table, skills.value, similarity);
      var recommended := Recommendations(Table, skills.value, similarity);
      && r.value.categoryAnalysis == CategoryAnalysis(scores)
      && r.value.topCategories == TopCategories(scores)
      && NoDuplicates(r.value.recommendedSkills)
      && |r.value.recommendedSkills| == Min(MaxRecommendations, |ToSet(recommended)|)
      && (forall x :: x in r.value.recommendedSkills ==> x in recommended)
      && (forall x :: x in r.value.recommendedSkills ==> !MatchesCaseInsensitively(x, skills.value))
      && r.value.totalSkillsAnalyzed == |skills.value|
  {
    if skills.None? || skills.value == [] {
      return Failure(HttpError(BadRequest, SkillsRequired));
    }
    var userSkills := skills.value;
    var categoryScores, recommended := ScoreCategories(Table, userSkills, similarity);
    var top := TopCategories(categoryScores);
    var unique := Distinct(recommended);
    var capped := unique[..Min(MaxRecommendations, |unique|)];
    NoDuplicatesPrefix(unique, Min(MaxRecommendations, |unique|));
    forall x | x in capped
      ensures x in recommended && !MatchesCaseInsensitively(x, userSkills)
    {
      RecommendationsNotOwned(Table, userSkills, similarity, x);
    }
    r := Success(AnalysisResponse(CategoryAnalysis(categoryScores), top, capped, |userSkills|));
  }
}
