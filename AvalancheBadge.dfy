/** The avalanche-danger badge: the level is forced into the five-step European scale and
    picks its colour and its label. */
module AvalancheBadge {
  import opened JsStrings

  const Colors: seq<string> := ["bg-green-500", "bg-yellow-400", "bg-orange-500", "bg-red-600", "bg-purple-800"]
  const Labels: seq<string> := ["Bajo (1)", "Limitado (2)", "Marcado (3)", "Fuerte (4)", "Muy Fuerte (5)"]

  /** `Math.min(Math.max(level || 1, 1), 5)`. */
  function SafeLevel(level: int): (r: int)
    ensures 1 <= r <= 5
  {
    var given := if level == 0 then 1 else level;
    var floor := if given > 1 then given else 1;
    if floor < 5 then floor else 5
  }

  /** Zero and negative levels become 1, levels above 5 become 5, the others stay. */
  lemma SafeLevelCases(level: int)
    ensures level <= 0 ==> SafeLevel(level) == 1
    ensures level > 5 ==> SafeLevel(level) == 5
    ensures 1 <= level <= 5 ==> SafeLevel(level) == level
  {
  }

  /** Clamping twice is clamping once. */
  lemma SafeLevelIdempotent(level: int)
    ensures SafeLevel(SafeLevel(level)) == SafeLevel(level)
  {
    SafeLevelCases(SafeLevel(level));
  }

  /** The badge colour, `colors[safeLevel - 1]`, always a valid index. */
  function Colour(level: int): (c: string)
    ensures c in Colors
  {
    Colors[SafeLevel(level) - 1]
  }

  /** The badge label, `labels[safeLevel - 1]`, always a valid index. */
  function Label(level: int): (l: string)
    ensures l in Labels
  {
    Labels[SafeLevel(level) - 1]
  }

  /** The label of level n ends with "(n)". */
  lemma LabelNamesLevel(n: int)
    requires 1 <= n <= 5
    ensures EndsWith(Labels[n - 1], "(" + [DigitChar(n)] + ")")
  {
    var l := Labels[n - 1];
    assert l[|l| - 3..] == "(" + [DigitChar(n)] + ")";
  }

  /** The label names the level the badge shows, and different levels never share a colour
      or a label. */
  lemma LabelMatchesLevel(level: int, other: int)
    ensures EndsWith(Label(level), "(" + IntToString(SafeLevel(level)) + ")")
    ensures SafeLevel(level) != SafeLevel(other) ==>
              Colour(level) != Colour(other) && Label(level) != Label(other)
  {
    var n := SafeLevel(level);
    assert IntToString(n) == [DigitChar(n)];
    LabelNamesLevel(n);
  }
}
