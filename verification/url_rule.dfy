/** `matchURLParameters`: the one targeting rule the frontend evaluates,
    comparing a query-string parameter of the page against a literal. The
    query is given already decoded, as a name-to-value map. */
module UrlRule {

  const Is := "is"
  const IsNot := "is_not"
  const Contains := "contains"
  const DoesNotContain := "does_not_contain"

  /** `needle` occurs in `hay` starting at position `i`. */
  predicate OccursAt(hay: string, needle: string, i: nat) {
    i + |needle| <= |hay| && hay[i..i + |needle|] == needle
  }

  ghost predicate IsSubstring(needle: string, hay: string) {
    exists i: nat :: OccursAt(hay, needle, i)
  }

  /** `hay.includes(needle)`: tries every start position from the left. */
  function Includes(hay: string, needle: string): bool
    decreases |hay|
  {
    (|needle| <= |hay| && hay[..|needle|] == needle)
    || (|hay| > 0 && Includes(hay[1..], needle))
  }

  lemma OccursShift(hay: string, needle: string, i: nat)
    requires 0 < i && 0 < |hay|
    ensures OccursAt(hay, needle, i) == OccursAt(hay[1..], needle, i - 1)
  {
    if i + |needle| <= |hay| {
      assert hay[1..][i - 1..i - 1 + |needle|] == hay[i..i + |needle|];
    }
  }

  lemma {:induction false} IncludesIffSubstring(hay: string, needle: string)
    ensures Includes(hay, needle) <==> IsSubstring(needle, hay)
    decreases |hay|
  {
    if |needle| <= |hay| && hay[..|needle|] == needle {
      assert OccursAt(hay, needle, 0);
    } else if |hay| > 0 {
      IncludesIffSubstring(hay[1..], needle);
      forall i: nat | 0 < i
        ensures OccursAt(hay, needle, i) == OccursAt(hay[1..], needle, i - 1)
      {
        OccursShift(hay, needle, i);
      }
      if Includes(hay[1..], needle) {
        var i: nat :| OccursAt(hay[1..], needle, i);
        assert OccursAt(hay, needle, i + 1);
      }
    }
  }

  /** `urlParams.get(name)` followed by the `paramValue &&` guard: only a
      parameter that is present and non-empty can make any operator true. */
  function MatchURLParameters(query: map<string, string>, name: string, value: string, operator: string): (b: bool)
    ensures b ==> name in query && query[name] != ""
    ensures name in query && query[name] != "" ==>
      && (operator == Is ==> (b <==> query[name] == value))
      && (operator == IsNot ==> (b <==> query[name] != value))
      && (operator == Contains ==> (b <==> IsSubstring(value, query[name])))
      && (operator == DoesNotContain ==> (b <==> !IsSubstring(value, query[name])))
    ensures operator != Is && operator != IsNot && operator != Contains && operator != DoesNotContain ==> !b
  {
    var present := name in query && query[name] != "";
    if !present then false
    else
      var paramValue := query[name];
      IncludesIffSubstring(paramValue, value);
      if operator == Is then paramValue == value
      else if operator == IsNot then paramValue != value
      else if operator == Contains then Includes(paramValue, value)
      else if operator == DoesNotContain then !Includes(paramValue, value)
      else false
  }

  /** For a present parameter, `is_not` is the negation of `is` and
      `does_not_contain` the negation of `contains`; for an absent or empty
      one, all four are false. */
  lemma NegatedOperatorsComplement(query: map<string, string>, name: string, value: string)
    ensures name in query && query[name] != "" ==>
      && MatchURLParameters(query, name, value, IsNot) == !MatchURLParameters(query, name, value, Is)
      && MatchURLParameters(query, name, value, DoesNotContain) == !MatchURLParameters(query, name, value, Contains)
    ensures !(name in query && query[name] != "") ==>
      && !MatchURLParameters(query, name, value, Is)
      && !MatchURLParameters(query, name, value, IsNot)
      && !MatchURLParameters(query, name, value, Contains)
      && !MatchURLParameters(query, name, value, DoesNotContain)
  {
  }

  /** `is` implies `contains`: an equal value is in particular a substring. */
  lemma {:induction false} IsImpliesContains(query: map<string, string>, name: string, value: string)
    ensures MatchURLParameters(query, name, value, Is) ==> MatchURLParameters(query, name, value, Contains)
  {
    if MatchURLParameters(query, name, value, Is) {
      assert query[name][0..|value|] == value;
      assert OccursAt(query[name], value, 0);
    }
  }
}
