/**
 * The `/extract-skills` handler: sorting named entities into organisation,
 * location and person buckets, admitting keyword-bearing words as skills, and
 * adding the regular-expression matches, never appending a skill twice.
 *
 * The named-entity model and `re.findall` are outside the model: their outputs
 * are parameters (`entities`, and `matches` — every match of every pattern, in
 * pattern order and then in text order).
 */
module SkillExtraction {
  import opened Wrappers
  import opened Text
  import opened Seqs

  /** One aggregated entity of the NER pipeline: its `word` and its `entity_group`. */
  datatype Entity = Entity(word: string, group: string)

  datatype SkillsResponse = SkillsResponse(
    skills: seq<string>,
    organizations: seq<string>,
    locations: seq<string>,
    persons: seq<string>,
    totalEntities: nat)

  const TextRequired := "Text is required"

  /** The fixed keyword list a skill must mention. */
  const Keywords: seq<string> := [
    "python", "java", "javascript", "react", "node", "aws", "docker",
    "kubernetes", "sql", "mongodb", "postgresql", "git", "linux",
    "agile", "scrum", "machine learning", "ai", "data science",
    "typescript", "angular", "vue", "django", "flask", "fastapi",
    "html", "css", "tailwind", "bootstrap", "redux", "graphql",
    "rest api", "microservices", "ci/cd", "jenkins", "terraform",
    "azure", "gcp", "redis", "elasticsearch", "kafka", "spark"
  ]

  /** Some keyword is a substring of the (already lower-cased) text. */
  predicate MentionsKeyword(text: string)
  {
    exists k :: k in Keywords && Contains(text, k)
  }

  /** An entity word is admitted as a skill when its lower-case form mentions a keyword. */
  predicate IsSkillWord(word: string)
  {
    MentionsKeyword(Lower(word))
  }

  /** Admission ignores case: a word is admitted exactly when its lower-case form is. */
  lemma SkillWordIgnoresCase(word: string)
    ensures IsSkillWord(word) <==> IsSkillWord(Lower(word))
  {
    LowerIdempotent(word);
  }

  /** A word containing a keyword, in any case, is admitted. */
  lemma KeywordAdmits(word: string, k: string, i: nat)
    requires k in Keywords
    requires i + |k| <= |word| && Lower(word)[i..i + |k|] == k
    ensures IsSkillWord(word)
  {
    ContainsAt(Lower(word), k, i);
  }

  /** `if x not in xs: xs.append(x)`. */
  function AddIfAbsent(xs: seq<string>, x: string): (r: seq<string>)
    ensures forall y :: y in r <==> y in xs || y == x
    ensures NoDuplicates(xs) ==> NoDuplicates(r)
    ensures |xs| <= |r| && r[..|xs|] == xs
  {
    if x in xs then xs else xs + [x]
  }

  /** The skills list after the entity loop. */
  function EntitySkills(entities: seq<Entity>): (r: seq<string>)
    ensures NoDuplicates(r)
    ensures forall x :: x in r <==>
      exists i :: 0 <= i < |entities| && entities[i].word == x && IsSkillWord(x)
  {
    if entities == [] then []
    else
      var last := entities[|entities| - 1];
      var prev := EntitySkills(entities[..|entities| - 1]);
      assert forall i :: 0 <= i < |entities| - 1 ==> entities[..|entities| - 1][i] == entities[i];
      if IsSkillWord(last.word) then AddIfAbsent(prev, last.word) else prev
  }

  /** The regex loop: appends each match not yet present, keeping what is already there. */
  function AddMatches(acc: seq<string>, matches: seq<string>): (r: seq<string>)
    ensures NoDuplicates(acc) ==> NoDuplicates(r)
    ensures forall x :: x in r <==> x in acc || x in matches
    ensures |acc| <= |r| && r[..|acc|] == acc
  {
    if matches == [] then acc
    else
      var prev := AddMatches(acc, matches[..|matches| - 1]);
      assert matches == matches[..|matches| - 1] + [matches[|matches| - 1]];
      AddIfAbsent(prev, matches[|matches| - 1])
  }

  /**
   * The whole skills list of one request, before `list(set(...))`: the
   * keyword-bearing entity words and the matches, each once.
   */
  function Skills(entities: seq<Entity>, matches: seq<string>): (r: seq<string>)
    ensures NoDuplicates(r)
    ensures forall x :: x in r <==>
      (IsSkillWord(x) && exists i :: 0 <= i < |entities| && entities[i].word == x) || x in matches
  {
    AddMatches(EntitySkills(entities), matches)
  }

  /** The words of the entities of one group, in entity order. */
  function Bucket(entities: seq<Entity>, group: string): (r: seq<string>)
    ensures |r| <= |entities|
    ensures forall x :: x in r <==>
      exists i :: 0 <= i < |entities| && entities[i].group == group && entities[i].word == x
  {
    if entities == [] then []
    else
      var last := entities[|entities| - 1];
      var prev := Bucket(entities[..|entities| - 1], group);
      assert forall i :: 0 <= i < |entities| - 1 ==> entities[..|entities| - 1][i] == entities[i];
      if last.group == group then prev + [last.word] else prev
  }

  /** The words of the entities that fall into none of the three buckets. */
  function Unbucketed(entities: seq<Entity>): seq<string>
  {
    if entities == [] then []
    else
      var last := entities[|entities| - 1];
      var prev := Unbucketed(entities[..|entities| - 1]);
      if last.group in {"ORG", "LOC", "PER"} then prev else prev + [last.word]
  }

  /** Every entity lands in exactly one of ORG, LOC, PER or none: the buckets never share an entity. */
  lemma {:induction false} BucketsPartition(entities: seq<Entity>)
    ensures |Bucket(entities, "ORG")| + |Bucket(entities, "LOC")| + |Bucket(entities, "PER")|
            + |Unbucketed(entities)| == |entities|
  {
    if entities != [] {
      BucketsPartition(entities[..|entities| - 1]);
    }
  }

  /** The entity and regex loops of `extract_skills`, appending under membership guards. */
  method Accumulate(entities: seq<Entity>, matches: seq<string>)
    returns (skills: seq<string>, organizations: seq<string>, locations: seq<string>, persons: seq<string>)
    ensures skills == Skills(entities, matches)
    ensures organizations == Bucket(entities, "ORG")
    ensures locations == Bucket(entities, "LOC")
    ensures persons == Bucket(entities, "PER")
  {
    skills, organizations, locations, persons := [], [], [], [];
    for i := 0 to |entities|
      invariant skills == EntitySkills(entities[..i])
      invariant organizations == Bucket(entities[..i], "ORG")
      invariant locations == Bucket(entities[..i], "LOC")
      invariant persons == Bucket(entities[..i], "PER")
    {
      var entity := entities[i];
      var entityText := Lower(entity.word);
      if entity.group == "ORG" {
        organizations := organizations + [entity.word];
      } else if entity.group == "LOC" {
        locations := locations + [entity.word];
      } else if entity.group == "PER" {
        persons := persons + [entity.word];
      }
      if MentionsKeyword(entityText) {
        if entity.word !in skills {
          skills := skills + [entity.word];
        }
      }
      assert entities[..i + 1][..i] == entities[..i];
    }
    assert entities[..|entities|] == entities;
    for j := 0 to |matches|
      invariant skills == AddMatches(EntitySkills(entities), matches[..j])
    {
      if matches[j] !in skills {
        skills := skills + [matches[j]];
      }
      assert matches[..j + 1][..j] == matches[..j];
    }
    assert matches[..|matches|] == matches;
  }

  /**
   * `extract_skills`: 400 when the text is missing or empty; otherwise the
   * de-duplicated lists (in an order the caller may not rely on) and the
   * number of entities.
   */
  method ExtractSkills(text: Option<string>, entities: seq<Entity>, matches: seq<string>)
    returns (r: Result<SkillsResponse, HttpError>)
    ensures r.Failure? <==> text.None? || text.value == []
    ensures r.Failure? ==> r.error == HttpError(BadRequest, TextRequired)
    ensures r.Success? ==>
      && NoDuplicates(r.value.skills)
      && |r.value.skills| == |Skills(entities, matches)|
      && (forall x :: x in r.value.skills <==> x in Skills(entities, matches))
      && (forall x :: x in r.value.organizations <==> x in Bucket(entities, "ORG"))
      && (forall x :: x in r.value.locations <==> x in Bucket(entities, "LOC"))
      && (forall x :: x in r.value.persons <==> x in Bucket(entities, "PER"))
      && NoDuplicates(r.value.organizations)
      && NoDuplicates(r.value.locations)
      && NoDuplicates(r.value.persons)
      && r.value.totalEntities == |entities|
  {
    if text.None? || text.value == [] {
      return Failure(HttpError(BadRequest, TextRequired));
    }
    var skills, organizations, locations, persons := Accumulate(entities, matches);
    var uniqueSkills := Distinct(skills);
    NoDuplicatesCardinality(skills);
    var uniqueOrganizations := Distinct(organizations);
    var uniqueLocations := Distinct(locations);
    var uniquePersons := Distinct(persons);
    r := Success(SkillsResponse(uniqueSkills, uniqueOrganizations, uniqueLocations, uniquePersons, |entities|));
  }
}
