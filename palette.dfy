/** The browser's magnitude scales: the dot colour of the timeline
    (`getColorByMagnitude`) and the CSS class of the details panel. Both
    compare a JavaScript number, so NaN falls through to the last case. */
module Palette {
  import opened JsNumber

  const Severe: string := "#d73027"
  const Strong: string := "#fc8d59"
  const Moderate: string := "#fee08b"
  const Light: string := "#d9ef8b"
  const Minor: string := "#91cf60"

  /** `getColorByMagnitude`. */
  function ColorByMagnitude(m: Num): (c: string)
    ensures c in {Severe, Strong, Moderate, Light, Minor}
    ensures m == NaN ==> c == Minor
  {
    if AtLeast(m, 7.0) then Severe
    else if AtLeast(m, 5.0) then Strong
    else if AtLeast(m, 4.0) then Moderate
    else if AtLeast(m, 3.0) then Light
    else Minor
  }

  /** The band a finite magnitude lies in, 0 (below 3) to 4 (7 and above). */
  function Band(v: real): (b: nat)
    ensures b <= 4
  {
    if v >= 7.0 then 4 else if v >= 5.0 then 3 else if v >= 4.0 then 2 else if v >= 3.0 then 1 else 0
  }

  function BandColor(b: nat): string
    requires b <= 4
  {
    [Minor, Light, Moderate, Strong, Severe][b]
  }

  /** The magnitude class of the details panel. */
  function MagnitudeClass(m: Num): (cls: string)
    ensures cls in {"magnitude-high", "magnitude-medium", "magnitude-low"}
  {
    if AtLeast(m, 6.0) then "magnitude-high"
    else if AtLeast(m, 5.0) then "magnitude-medium"
    else "magnitude-low"
  }

  // ---------------------------------------------------------------------------
  // properties

  /** Each finite magnitude gets the colour of exactly the band it lies in:
      [7, inf), [5, 7), [4, 5), [3, 4) and below 3. */
  lemma ColorBands(v: real)
    ensures ColorByMagnitude(Finite(v)) == Severe <==> v >= 7.0
    ensures ColorByMagnitude(Finite(v)) == Strong <==> 5.0 <= v < 7.0
    ensures ColorByMagnitude(Finite(v)) == Moderate <==> 4.0 <= v < 5.0
    ensures ColorByMagnitude(Finite(v)) == Light <==> 3.0 <= v < 4.0
    ensures ColorByMagnitude(Finite(v)) == Minor <==> v < 3.0
    ensures ColorByMagnitude(Finite(v)) == BandColor(Band(v))
  {
    ColorsDistinct();
  }

  /** The five colours are pairwise different. */
  lemma ColorsDistinct()
    ensures forall i, j :: 0 <= i < j <= 4 ==> BandColor(i) != BandColor(j)
  {
    assert Severe[1] == 'd' && Strong[1] == 'f' && Moderate[1] == 'f' && Light[1] == 'd' && Minor[1] == '9';
    assert Strong[2] == 'c' && Moderate[2] == 'e';
    assert Severe[2] == '7' && Light[2] == '9';
  }

  /** The class bands: high from 6, medium in [5, 6), low below 5 and for NaN. */
  lemma ClassBands(v: real)
    ensures MagnitudeClass(Finite(v)) == "magnitude-high" <==> v >= 6.0
    ensures MagnitudeClass(Finite(v)) == "magnitude-medium" <==> 5.0 <= v < 6.0
    ensures MagnitudeClass(Finite(v)) == "magnitude-low" <==> v < 5.0
    ensures MagnitudeClass(NaN) == "magnitude-low"
  {
    assert "magnitude-high"[10] == 'h' && "magnitude-medium"[10] == 'm' && "magnitude-low"[10] == 'l';
  }
}
