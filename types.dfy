/**
 * The constrained aliases of server/src/types.py as subset types, with the
 * check pydantic performs when a raw value is validated against each.
 */
module Types {
  import opened Exceptions

  type UserGroupCD = s: string | 1 <= |s| <= 100 witness "g"
  type LevelCD = s: string | 1 <= |s| <= 100 witness "l"
  type PEM = s: string | |s| >= 1 witness "p"
  type InferenceScoreVal = x: int | 1 <= x <= 5 witness 1
  type BinaryInferenceScoreVal = x: int | x == 1 || x == 5 witness 1
  type ModelTemperature = t: real | 0.0 < t <= 1.0 witness 1.0
  type Language = s: string | s == "ru" || s == "en" witness "ru"
  type BaseName = s: string | |s| >= 1 witness "n"
  type BaseDesc = s: string | |s| >= 1 witness "d"

  /** `get_args(Language)`: the declared languages, in declaration order. */
  const DeclaredLanguages: seq<Language> := ["ru", "en"]

  /** A user-group or level code: 1 to 100 characters. */
  function AsCode(s: string): (r: Result<UserGroupCD>)
    ensures r.Ok? <==> 1 <= |s| <= 100
    ensures r.Ok? ==> r.value == s
    ensures r.Err? ==> r.error == ValidationError
  {
    if 1 <= |s| <= 100 then Ok(s) else Err(ValidationError)
  }

  /** A PEM text, base name or base description: any non-empty string. */
  function AsNonEmpty(s: string): (r: Result<PEM>)
    ensures r.Ok? <==> s != []
    ensures r.Ok? ==> r.value == s
    ensures r.Err? ==> r.error == ValidationError
  {
    if s != [] then Ok(s) else Err(ValidationError)
  }

  function AsInferenceScore(x: int): (r: Result<InferenceScoreVal>)
    ensures r.Ok? <==> 1 <= x <= 5
    ensures r.Ok? ==> r.value == x
    ensures r.Err? ==> r.error == ValidationError
  {
    if 1 <= x <= 5 then Ok(x) else Err(ValidationError)
  }

  function AsBinaryInferenceScore(x: int): (r: Result<BinaryInferenceScoreVal>)
    ensures r.Ok? <==> x == 1 || x == 5
    ensures r.Ok? ==> r.value == x
    ensures r.Err? ==> r.error == ValidationError
  {
    if x == 1 || x == 5 then Ok(x) else Err(ValidationError)
  }

  function AsModelTemperature(t: real): (r: Result<ModelTemperature>)
    ensures r.Ok? <==> 0.0 < t <= 1.0
    ensures r.Ok? ==> r.value == t
    ensures r.Err? ==> r.error == ValidationError
  {
    if 0.0 < t <= 1.0 then Ok(t) else Err(ValidationError)
  }

  function AsLanguage(s: string): (r: Result<Language>)
    ensures r.Ok? <==> s in DeclaredLanguages
    ensures r.Ok? ==> r.value == s
    ensures r.Err? ==> r.error == ValidationError
  {
    if s == "ru" || s == "en" then Ok(s) else Err(ValidationError)
  }

  /** Every binary score is also an ordinary score. */
  lemma BinaryScoreIsScore(x: int)
    requires AsBinaryInferenceScore(x).Ok?
    ensures AsInferenceScore(x) == Ok(x)
  {
  }
}
