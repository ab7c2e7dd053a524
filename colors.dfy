/** color_for_value (on_search_dashboard.py:79-96): a traffic-light colour
    for a count, with thresholds 20/50 when a higher count is bad and
    500/1000 when a higher count is good. */
module Colors {

  const Colours: set<string> := {"black", "green", "orange", "red"}

  /** color_for_value(val, higher_is_bad). */
  function ColorForValue(val: int, higherIsBad: bool): (colour: string)
    ensures colour in Colours
    ensures colour == "black" <==> val == 0
  {
    if val == 0 then "black"
    else if higherIsBad then
      if val > 50 then "red" else if val > 20 then "orange" else "green"
    else
      if val > 1000 then "green" else if val > 500 then "orange" else "red"
  }

  /** How alarming a colour is: green, orange, red in rising order. */
  function Severity(colour: string): int
  {
    if colour == "red" then 2 else if colour == "orange" then 1 else 0
  }

  /** The bands of the two modes: with higherIsBad, above 50 is red, 21..50
      orange and any other non-zero value green; otherwise above 1000 is
      green, 501..1000 orange and any other non-zero value red. */
  lemma ColorBands(val: int)
    requires val != 0
    ensures ColorForValue(val, true) == "red" <==> val > 50
    ensures ColorForValue(val, true) == "orange" <==> 20 < val <= 50
    ensures ColorForValue(val, true) == "green" <==> val <= 20
    ensures ColorForValue(val, false) == "green" <==> val > 1000
    ensures ColorForValue(val, false) == "orange" <==> 500 < val <= 1000
    ensures ColorForValue(val, false) == "red" <==> val <= 500
  {
  }

  /** Among non-zero values, a larger value is never less alarming when
      higher is bad, and never more alarming when higher is good. */
  lemma SeverityMonotone(a: int, b: int)
    requires a != 0 && b != 0 && a <= b
    ensures Severity(ColorForValue(a, true)) <= Severity(ColorForValue(b, true))
    ensures Severity(ColorForValue(a, false)) >= Severity(ColorForValue(b, false))
  {
  }
}
