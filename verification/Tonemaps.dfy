/** What a 3A result holds besides its exposures, and how the tone map of the request that it answers is
    laid over what the algorithms computed. */
module Tonemaps {
  import opened Basics

  datatype TuningMode =
    | Video | VideoUll | VideoHdr | VideoHdr2 | VideoHlc | VideoCustomAic | VideoLl | VideoRearView | VideoHitchView
    | StillCapture | VideoBinning | NoMode

  datatype TonemapMode = ContrastCurve | FastTone | HighQualityTone | GammaTone | PresetTone

  datatype Preset = Srgb | Rec709

  datatype CurveSizes = CurveSizes(r: int, g: int, b: int)

  /** The parameters of a request. `rest` stands for those only copied around and handed to the algorithms. */
  datatype Parameters = Parameters(
    tuningMode: TuningMode, autoScene: bool, autoExposure: bool, manualIso: int, manualExpTimeUs: int,
    tonemap: TonemapMode, preset: Preset, gamma: real, curveSizes: CurveSizes, rest: int)

  const NO_PARAMETERS := Parameters(NoMode, true, true, 0, -1, FastTone, Srgb, 0.0, CurveSizes(0, 0, 0), 0)

  datatype Bracket = NoBracket | UllBracket | HdrBracket

  datatype SceneMode = AutoScene | HdrScene | UllScene

  datatype Gains = Gains(rPerG: real, bPerG: real)

  datatype Tables = Tables(r: seq<real>, g: seq<real>, b: seq<real>)

  /** What the algorithms computed and what is laid over it. `rest` stands for the parts only copied around. */
  datatype Content = Content(
    bracket: Bracket, scene: SceneMode, manual: bool, gammaSize: nat, gammas: Tables, tones: seq<real>, gains: Gains, rest: int)

  const NO_CONTENT := Content(NoBracket, AutoScene, false, 0, Tables([], [], []), [], Gains(0.0, 0.0), 0)

  /** The arithmetic the tone maps rest on: powers, the interpolation of the tone curves, and the white balance
      gains that stand for curves of different height.  The curves are a number that stands for the settings'
      curve memory: a copy of the parameters has sizes of its own but shares that memory. */
  datatype Library = Library(
    power: (real, real) -> real, draw: (int, CurveSizes, nat) -> Tables, curveGains: (int, CurveSizes) -> Option<Gains>)

  const MIN_TONEMAP_POINTS: nat := 64
  const EPSILON := 0.00001

  /** Whether a tone map of the user's is laid over the algorithms'. */
  predicate Manual(p: Parameters) {
    p.tonemap == FastTone || p.tonemap == HighQualityTone ==>
      !p.autoExposure && p.manualIso != 0 && p.manualExpTimeUs != 0
  }

  /** The scene mode the algorithms ask for. */
  function SceneFor(p: Parameters, bracket: Bracket): SceneMode {
    if p.autoScene && bracket == HdrBracket then HdrScene
    else if p.autoScene && bracket == UllBracket then UllScene
    else AutoScene
  }

  function Gray(table: seq<real>): Tables { Tables(table, table, table) }

  function GammaTable(lib: Library, gamma: real, size: nat): seq<real>
    requires gamma >= EPSILON
  {
    seq(size, i requires 0 <= i < size => lib.power(i as real / size as real, 1.0 / gamma))
  }

  /** A preset's value at `x`; `step` decides on the branch. */
  function PresetValue(lib: Library, preset: Preset, step: real, x: real): real {
    match preset
    case Srgb => if step < 0.0031308 then 12.92 * step else 1.055 * lib.power(x, 1.0 / 2.4) - 0.055
    case Rec709 => if step < 0.018 then 4.5 * step else 1.099 * lib.power(x, 0.45) - 0.099
  }

  /** Entry `i` of a preset table. The position that decides on the branch is a quotient of integers. */
  function PresetEntry(lib: Library, preset: Preset, i: nat, size: nat): real
    requires size > 1
  {
    PresetValue(lib, preset, (i / (size - 1)) as real, i as real / (size - 1) as real)
  }

  function PresetTable(lib: Library, preset: Preset, size: nat): seq<real>
    requires size > 1
  {
    seq(size, i requires 0 <= i < size => PresetEntry(lib, preset, i, size))
  }

  predicate CurvesMatch(sizes: CurveSizes) {
    sizes.r == sizes.g == sizes.b
  }

  function GammasFor(lib: Library, curves: int, p: Parameters, c: Content): Tables {
    match p.tonemap
    case GammaTone =>
      if p.gamma < EPSILON || c.gammaSize < MIN_TONEMAP_POINTS then c.gammas else Gray(GammaTable(lib, p.gamma, c.gammaSize))
    case PresetTone =>
      if c.gammaSize < MIN_TONEMAP_POINTS then c.gammas else Gray(PresetTable(lib, p.preset, c.gammaSize))
    case ContrastCurve =>
      if c.gammaSize > 1 && CurvesMatch(p.curveSizes) then lib.draw(curves, p.curveSizes, c.gammaSize) else c.gammas
    case _ => c.gammas
  }

  function GainsFor(lib: Library, curves: int, p: Parameters, c: Content): Gains {
    if p.tonemap == ContrastCurve && CurvesMatch(p.curveSizes) && lib.curveGains(curves, p.curveSizes).Some?
    then lib.curveGains(curves, p.curveSizes).value
    else c.gains
  }

  function Ones(n: nat): (r: seq<real>)
    ensures |r| == n
  {
    seq(n, _ => 1.0)
  }

  /** What becomes of a result's content when it is handled. */
  function Toned(lib: Library, curves: int, p: Parameters, c: Content): Content {
    var known := c.(scene := SceneFor(p, c.bracket), manual := Manual(p));
    if !Manual(p) then known
    else known.(gammas := GammasFor(lib, curves, p, c), gains := GainsFor(lib, curves, p, c), tones := Ones(|c.tones|))
  }

  /** What handling makes of the content: the scene the algorithms bracketed for, if the request leaves that to them; and,
      unless the tone map is the algorithms' own, a flat tone table with the gamma tables and gains of the user's tone map,
      each left as it is if that map does not say or the table is too small. */
  lemma {:induction false} TonedIs(lib: Library, curves: int, p: Parameters, c: Content)
    ensures var t := Toned(lib, curves, p, c);
            && t.bracket == c.bracket && t.gammaSize == c.gammaSize && t.rest == c.rest
            && (t.scene == HdrScene <==> p.autoScene && c.bracket == HdrBracket)
            && (t.scene == UllScene <==> p.autoScene && c.bracket == UllBracket)
            && (t.manual <==> (p.tonemap == FastTone || p.tonemap == HighQualityTone ==>
                                 !p.autoExposure && p.manualIso != 0 && p.manualExpTimeUs != 0))
            && (!t.manual ==> t.gammas == c.gammas && t.tones == c.tones && t.gains == c.gains)
            && (t.manual ==> |t.tones| == |c.tones| && forall i :: 0 <= i < |c.tones| ==> t.tones[i] == 1.0)
    ensures var t := Toned(lib, curves, p, c);
            && (p.tonemap == GammaTone ==>
                  if p.gamma < 0.00001 || c.gammaSize < 64 then t.gammas == c.gammas
                  else
                    && t.gammas.r == t.gammas.g == t.gammas.b && |t.gammas.g| == c.gammaSize
                    && forall i :: 0 <= i < c.gammaSize ==>
                         t.gammas.g[i] == lib.power(i as real / c.gammaSize as real, 1.0 / p.gamma))
            && (p.tonemap == PresetTone ==>
                  if c.gammaSize < 64 then t.gammas == c.gammas
                  else
                    && t.gammas.r == t.gammas.g == t.gammas.b == PresetTable(lib, p.preset, c.gammaSize))
            && (p.tonemap == ContrastCurve ==>
                  var alike := p.curveSizes.r == p.curveSizes.g && p.curveSizes.b == p.curveSizes.g;
                  && t.gammas == (if alike && c.gammaSize > 1 then lib.draw(curves, p.curveSizes, c.gammaSize) else c.gammas)
                  && t.gains == (if alike && lib.curveGains(curves, p.curveSizes).Some? then lib.curveGains(curves, p.curveSizes).value
                                 else c.gains))
            && (p.tonemap != ContrastCurve ==> t.gains == c.gains)
            && (p.tonemap == FastTone || p.tonemap == HighQualityTone ==> t.gammas == c.gammas)
  {
  }

  // ------------------------------------------------------------ handled again

  /** Whether the curves, as they are now, give the tables and gains that the content holds. */
  predicate CurvesAgree(lib: Library, curves: int, p: Parameters, c: Content) {
    p.tonemap == ContrastCurve && CurvesMatch(p.curveSizes) ==>
      && (c.gammaSize > 1 ==> lib.draw(curves, p.curveSizes, c.gammaSize) == c.gammas)
      && (lib.curveGains(curves, p.curveSizes).Some? ==> lib.curveGains(curves, p.curveSizes).value == c.gains)
  }

  /** Handling a result again with the same curves changes nothing. */
  lemma {:induction false} TonedTwice(lib: Library, curves: int, p: Parameters, c: Content)
    ensures var once := Toned(lib, curves, p, c); Toned(lib, curves, p, once) == once
  {
    assert |Ones(|c.tones|)| == |c.tones|;
  }

  /** With other curves it changes nothing exactly if these give the same tables and gains: only a contrast curve
      looks at them. */
  lemma {:induction false} TonedAgainIff(lib: Library, before: int, now: int, p: Parameters, c: Content)
    requires Toned(lib, before, p, c) == c
    ensures Toned(lib, now, p, c) == c <==> CurvesAgree(lib, now, p, c)
  {
  }

  lemma {:induction false} PresetEnds(lib: Library, preset: Preset, x: real)
    requires forall y :: lib.power(1.0, y) == 1.0
    ensures PresetValue(lib, preset, 0.0, x) == 0.0 && PresetValue(lib, preset, 1.0, 1.0) == 1.0
  {
  }

  lemma {:induction false} StepOf(i: nat, n: nat)
    requires i <= n && 0 < n
    ensures i / n == if i == n then 1 else 0
    ensures n as real / n as real == 1.0
  {
  }

  /** Both preset tables are 0 but for the last entry, which is 1. */
  lemma {:induction false} PresetsAreSteps(lib: Library, preset: Preset, size: nat, i: nat)
    requires i < size && MIN_TONEMAP_POINTS <= size && forall y :: lib.power(1.0, y) == 1.0
    ensures PresetTable(lib, preset, size)[i] == if i == size - 1 then 1.0 else 0.0
  {
    StepOf(i, size - 1);
    PresetEnds(lib, preset, i as real / (size - 1) as real);
  }
}
