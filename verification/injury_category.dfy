/** `categorize_injury` of `load_dim_injury_type`: the injury text is
    lower-cased and three keyword groups are tried in a fixed order; the
    first group with a keyword occurring in the text decides the
    (category, severity) pair. */
module InjuryCategory {
  import opened Values
  import opened Text

  datatype Category = Muscular | BoneLigament | Joint | Other
  datatype Severity = Low | Medium | High

  const MuscleWords: seq<string> := ["muscle", "strain", "tear"]
  const BoneWords: seq<string> := ["fracture", "break", "rupture"]
  const JointWords: seq<string> := ["ankle", "knee", "hip"]

  /** Python's `any(word in text for word in words)`. */
  function AnyIn(words: seq<string>, text: string): bool {
    if |words| == 0 then false else Contains(text, words[0]) || AnyIn(words[1..], text)
  }

  /** Some keyword of `words` occurs in `text`. */
  ghost predicate Mentions(text: string, words: seq<string>) {
    exists i :: 0 <= i < |words| && Contains(text, words[i])
  }

  lemma {:induction false} AnyInIsMentions(words: seq<string>, text: string)
    ensures AnyIn(words, text) <==> Mentions(text, words)
  {
    if |words| > 0 {
      AnyInIsMentions(words[1..], text);
      if Mentions(text, words[1..]) {
        var i :| 0 <= i < |words[1..]| && Contains(text, words[1..][i]);
        assert Contains(text, words[i + 1]);
      }
      if Mentions(text, words) && !Contains(text, words[0]) {
        var i :| 0 <= i < |words| && Contains(text, words[i]);
        assert Contains(text, words[1..][i - 1]);
      }
    }
  }

  /** `injury_type.lower() if injury_type else ''` */
  function Normalized(injury: Option<string>): string {
    match injury
    case None => ""
    case Some(s) => if s == "" then "" else Lower(s)
  }

  function Categorize(injury: Option<string>): (r: (Category, Severity))
    ensures r.0 == Muscular <==> Mentions(Normalized(injury), MuscleWords)
    ensures r.0 == BoneLigament <==>
              !Mentions(Normalized(injury), MuscleWords) && Mentions(Normalized(injury), BoneWords)
    ensures r.0 == Joint <==>
              && !Mentions(Normalized(injury), MuscleWords)
              && !Mentions(Normalized(injury), BoneWords)
              && Mentions(Normalized(injury), JointWords)
    ensures r in {(Muscular, Medium), (BoneLigament, High), (Joint, Medium), (Other, Low)}
  {
    var text := Normalized(injury);
    AnyInIsMentions(MuscleWords, text);
    AnyInIsMentions(BoneWords, text);
    AnyInIsMentions(JointWords, text);
    if AnyIn(MuscleWords, text) then (Muscular, Medium)
    else if AnyIn(BoneWords, text) then (BoneLigament, High)
    else if AnyIn(JointWords, text) then (Joint, Medium)
    else (Other, Low)
  }

  /** A missing injury and an empty one both fall through to (Other, Low). */
  lemma MissingInjuryIsOther()
    ensures Categorize(None) == Categorize(Some("")) == (Other, Low)
  {
    assert !AnyIn(MuscleWords, "") && !AnyIn(BoneWords, "") && !AnyIn(JointWords, "");
  }

  /** Letter case never changes the category. */
  lemma CategorizeIgnoresCase(s: string)
    ensures Categorize(Some(s)) == Categorize(Some(Lower(s)))
  {
    LowerIdempotent(s);
  }

  lemma MentionsAppend(s: string, t: string, words: seq<string>)
    requires Mentions(s, words)
    ensures Mentions(s + t, words)
  {
    var i :| 0 <= i < |words| && Contains(s, words[i]);
    ContainsAppend(s, t, words[i]);
  }

  /** Muscular takes precedence: once the text names a muscle keyword, no
      further text (a fracture, a knee) moves it to another category. */
  lemma MuscularSurvivesMoreText(s: string, t: string)
    requires s != "" && Categorize(Some(s)).0 == Muscular
    ensures Categorize(Some(s + t)).0 == Muscular
  {
    LowerAppend(s, t);
    MentionsAppend(Lower(s), Lower(t), MuscleWords);
  }
}
