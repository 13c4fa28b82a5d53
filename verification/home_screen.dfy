/** The progress bar of the home screen (src/screens/HomeScreen.tsx): its colour bands. */
module HomeScreen {

  const Red := "#ff3b30"
  const Orange := "#ff9500"
  const Yellow := "#ffd60a"
  const Green := "#34c759"

  /** `progressColor`: red by default, overridden by the first matching band. */
  function ProgressColor(value: real): (color: string)
    ensures color == Red <==> value < 50.0 || value > 100.0
    ensures color == Orange <==> 50.0 <= value < 80.0
    ensures color == Yellow <==> 80.0 <= value < 100.0
    ensures color == Green <==> value == 100.0
  {
    if value >= 50.0 && value < 80.0 then Orange
    else if value >= 80.0 && value < 100.0 then Yellow
    else if value == 100.0 then Green
    else Red
  }

  /** The band a value falls in, as a percentage of the target. */
  datatype Band = BelowHalf | Halfway | NearlyThere | Complete | Overshoot

  function BandOf(value: real): Band {
    if value < 50.0 then BelowHalf
    else if value < 80.0 then Halfway
    else if value < 100.0 then NearlyThere
    else if value == 100.0 then Complete
    else Overshoot
  }

  /** Every band has one colour, and a value over the target is painted like one under half. */
  lemma ColourFollowsBand(a: real, b: real)
    ensures BandOf(a) == BandOf(b) ==> ProgressColor(a) == ProgressColor(b)
    ensures ProgressColor(a) == ProgressColor(b) <==>
      BandOf(a) == BandOf(b) || (BandOf(a) in {BelowHalf, Overshoot} && BandOf(b) in {BelowHalf, Overshoot})
  {
  }
}
