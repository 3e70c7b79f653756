/**
 * The inference script `testar_imagem.py`: the name of the saved chart,
 * the decision rule applied to the model's scalar output, the certainty
 * tiers, the chart's two bars, the early returns when the model or the
 * image cannot be loaded, and the argument-count guard of `main`.
 *
 * Keras, PIL and matplotlib are not modelled: loading the model, loading
 * the image and predicting are parameters, and the prediction is an exact
 * `real`.
 */
module TestImage {
  import opened Names

  // ---------------------------------------------------------------------------
  // Splitting a path: Python's `str.split(c)` and `[-1]`

  /**
   * `s.split(c)` in Python: the pieces between occurrences of `c`, one
   * more piece than there are occurrences (so `"".split(c)` is `[""]`).
   */
  function SplitOn(s: string, c: char): (pieces: seq<string>)
    ensures |pieces| >= 1
    decreases |s|
  {
    if s == [] then [""]
    else
      var init := SplitOn(s[..|s| - 1], c);
      var last := s[|s| - 1];
      if last == c then init + [""]
      else init[..|init| - 1] + [init[|init| - 1] + [last]]
  }

  /** No piece contains the separator. */
  lemma {:induction false} PiecesLackSeparator(s: string, c: char)
    ensures forall i :: 0 <= i < |SplitOn(s, c)| ==> c !in SplitOn(s, c)[i]
    decreases |s|
  {
    if s != [] {
      PiecesLackSeparator(s[..|s| - 1], c);
      var init := SplitOn(s[..|s| - 1], c);
      var last := s[|s| - 1];
      if last != c {
        var pieces := init[..|init| - 1] + [init[|init| - 1] + [last]];
        assert c !in init[|init| - 1];
        assert c !in init[|init| - 1] + [last];
        forall i | 0 <= i < |pieces| ensures c !in pieces[i] {
          if i < |pieces| - 1 {
            assert pieces[i] == init[i];
          }
        }
      }
    }
  }

  /** `c.join(pieces)` in Python. */
  function JoinWith(pieces: seq<string>, c: char): string
    requires |pieces| >= 1
    decreases |pieces|
  {
    if |pieces| == 1 then pieces[0]
    else JoinWith(pieces[..|pieces| - 1], c) + [c] + pieces[|pieces| - 1]
  }

  /** Splitting loses nothing: joining the pieces back gives the string. */
  lemma {:induction false} JoinSplit(s: string, c: char)
    ensures JoinWith(SplitOn(s, c), c) == s
    decreases |s|
  {
    if s != [] {
      var init := SplitOn(s[..|s| - 1], c);
      JoinSplit(s[..|s| - 1], c);
      var last := s[|s| - 1];
      assert s == s[..|s| - 1] + [last];
      if last == c {
        var r := init + [""];
        assert r[..|r| - 1] == init;
      } else {
        var r := init[..|init| - 1] + [init[|init| - 1] + [last]];
        assert r[..|r| - 1] == init[..|init| - 1];
        if |init| == 1 {
        } else {
          var pre := init[..|init| - 1];
          assert init[..|init| - 1][..|pre| - 1] == init[..|init| - 2];
          assert JoinWith(init, c) == JoinWith(pre, c) + [c] + init[|init| - 1];
        }
      }
    }
  }

  /** The part of `s` after its last `c`, taken character by character from the end. */
  function AfterLast(s: string, c: char): (r: string)
    ensures |r| <= |s|
    decreases |s|
  {
    if s == [] then ""
    else if s[|s| - 1] == c then ""
    else AfterLast(s[..|s| - 1], c) + [s[|s| - 1]]
  }

  /**
   * The part after the last `c` is the longest suffix without a `c`: it has
   * no `c`, is a suffix of `s`, is all of `s` when `s` has no `c`, and is
   * preceded by a `c` whenever it is shorter than `s`.
   */
  lemma {:induction false} AfterLastShape(s: string, c: char)
    ensures var r := AfterLast(s, c);
      && c !in r
      && r == s[|s| - |r|..]
      && (c !in s ==> r == s)
      && (|r| < |s| ==> s[|s| - |r| - 1] == c)
    decreases |s|
  {
    if s != [] && s[|s| - 1] != c {
      var init := s[..|s| - 1];
      var last := s[|s| - 1];
      AfterLastShape(init, c);
      var r0 := AfterLast(init, c);
      var r := r0 + [last];
      assert r == AfterLast(s, c);
      assert s == init + [last];
      assert s[|s| - |r|..] == init[|init| - |r0|..] + [last];
      if c !in s {
        assert c !in init;
      }
      if |r| < |s| {
        assert s[|s| - |r| - 1] == init[|init| - |r0| - 1];
      }
    }
  }

  /** The part after the last `c` is a suffix of `s`. */
  lemma AfterLastIsSuffix(s: string, c: char)
    ensures AfterLast(s, c) == s[|s| - |AfterLast(s, c)|..]
  {
    AfterLastShape(s, c);
  }

  /** The part after the last `c` is preceded by a `c` whenever it is shorter than `s`. */
  lemma AfterLastBoundary(s: string, c: char)
    ensures |AfterLast(s, c)| < |s| ==> s[|s| - |AfterLast(s, c)| - 1] == c
  {
    AfterLastShape(s, c);
  }

  /** `s.split(c)[-1]` is the part of `s` after its last `c`. */
  lemma {:induction false} LastPieceIsAfterLast(s: string, c: char)
    ensures var pieces := SplitOn(s, c); pieces[|pieces| - 1] == AfterLast(s, c)
    decreases |s|
  {
    if s != [] {
      LastPieceIsAfterLast(s[..|s| - 1], c);
    }
  }

  /** `s.split(c)[-1]`. */
  function LastPiece(s: string, c: char): (r: string)
    ensures r == AfterLast(s, c)
  {
    LastPieceIsAfterLast(s, c);
    var pieces := SplitOn(s, c);
    pieces[|pieces| - 1]
  }

  // ---------------------------------------------------------------------------
  // Naming the saved chart

  const OutputPrefix: string := "resultado_"

  predicate IsSeparator(ch: char)
  {
    ch == '/' || ch == '\\'
  }

  /** A suffix of a suffix is a suffix. */
  lemma SuffixOfSuffix(a: string, b: string, s: string)
    requires |a| <= |b| && a == b[|b| - |a|..]
    requires |b| <= |s| && b == s[|s| - |b|..]
    ensures a == s[|s| - |a|..]
  {
    assert s[|s| - |b|..][|b| - |a|..] == s[|s| - |a|..];
  }

  /** A character missing from a string is missing from its suffixes. */
  lemma NotInSuffix(x: char, a: string, s: string)
    requires x !in s && |a| <= |s| && a == s[|s| - |a|..]
    ensures x !in a
  {
  }

  /** The character before the kept suffix, after taking the part after `c` then `d`. */
  lemma BeforeLastSegment(s: string, c: char, d: char)
    ensures var rest := AfterLast(AfterLast(s, c), d);
      |rest| < |s| ==> s[|s| - |rest| - 1] == c || s[|s| - |rest| - 1] == d
  {
    var mid := AfterLast(s, c);
    var rest := AfterLast(mid, d);
    AfterLastBoundary(s, c);
    AfterLastBoundary(mid, d);
    AfterLastIsSuffix(s, c);
    if |rest| < |mid| {
      var k := |mid| - |rest| - 1;
      assert mid[k] == s[|s| - |mid| + k];
    }
  }

  /**
   * Taking the part after the last `c`, then after the last `d`, leaves a
   * suffix with neither character, preceded by one of them whenever it is
   * shorter than the string.
   */
  lemma AfterLastTwice(s: string, c: char, d: char)
    ensures var rest := AfterLast(AfterLast(s, c), d);
      && c !in rest && d !in rest
      && |rest| <= |s| && rest == s[|s| - |rest|..]
      && (|rest| < |s| ==> s[|s| - |rest| - 1] == c || s[|s| - |rest| - 1] == d)
  {
    var mid := AfterLast(s, c);
    var rest := AfterLast(mid, d);
    AfterLastShape(s, c);
    AfterLastShape(mid, d);
    SuffixOfSuffix(rest, mid, s);
    NotInSuffix(c, rest, mid);
    BeforeLastSegment(s, c, d);
  }

  /** The last path segment: the part after the last `/`, then after the last `\`. */
  function LastSegment(path: Path): (r: string)
    ensures |r| <= |path|
  {
    AfterLast(AfterLast(path, '/'), '\\')
  }

  /**
   * The last segment has no separator, is a suffix of the path, and is
   * preceded in the path by a separator whenever it is shorter than the path.
   */
  lemma LastSegmentShape(path: Path)
    ensures var rest := LastSegment(path);
      && '/' !in rest && '\\' !in rest
      && |rest| <= |path| && rest == path[|path| - |rest|..]
      && (|rest| < |path| ==> IsSeparator(path[|path| - |rest| - 1]))
  {
    AfterLastTwice(path, '/', '\\');
  }

  /**
   * The file the chart is saved to: the prefix, then the last piece of the
   * path split on `/`, split again on `\`; that is the last segment.
   */
  function OutputName(imagePath: Path): (name: string)
    ensures name == OutputPrefix + LastSegment(imagePath)
  {
    OutputPrefix + LastPiece(LastPiece(imagePath, '/'), '\\')
  }

  /** A path without separators is kept whole; one ending in a separator leaves nothing. */
  lemma OutputNameEdgeCases(imagePath: Path)
    ensures (forall i :: 0 <= i < |imagePath| ==> !IsSeparator(imagePath[i]))
            ==> OutputName(imagePath) == OutputPrefix + imagePath
    ensures |imagePath| > 0 && IsSeparator(imagePath[|imagePath| - 1])
            ==> OutputName(imagePath) == OutputPrefix
  {
    var mid := AfterLast(imagePath, '/');
    AfterLastShape(imagePath, '/');
    AfterLastShape(mid, '\\');
    if forall i :: 0 <= i < |imagePath| ==> !IsSeparator(imagePath[i]) {
      assert '/' !in imagePath;
      assert '\\' !in mid;
    }
    if |imagePath| > 0 && imagePath[|imagePath| - 1] == '\\' && |mid| > 0 {
      assert mid[|mid| - 1] == imagePath[|imagePath| - 1];
    }
  }

  // ---------------------------------------------------------------------------
  // Interpreting the prediction

  datatype Label = Cat | Dog

  /** The colour of the figure's title for each label. */
  datatype Colour = Orange | Brown

  datatype Verdict = Verdict(animal: Label, confidence: real, colour: Colour)

  /** The decision rule: dog above one half, cat otherwise, with its confidence in percent. */
  function Classify(prediction: real): (v: Verdict)
    ensures v.animal == Dog <==> prediction > 0.5
    ensures v.animal == Dog ==> v.confidence == prediction * 100.0 && v.colour == Brown
    ensures v.animal == Cat ==> v.confidence == (1.0 - prediction) * 100.0 && v.colour == Orange
  {
    if prediction > 0.5 then Verdict(Dog, prediction * 100.0, Brown)
    else Verdict(Cat, (1.0 - prediction) * 100.0, Orange)
  }

  /** For a prediction in [0, 1] the confidence is between 50 and 100 percent. */
  lemma ConfidenceBounds(prediction: real)
    requires 0.0 <= prediction <= 1.0
    ensures 50.0 <= Classify(prediction).confidence <= 100.0
    ensures Classify(prediction).confidence == 50.0 <==> prediction == 0.5
  {
  }

  datatype Certainty = VeryHigh | High | Moderate | Low

  /** The certainty tier printed beside the confidence. */
  function CertaintyOf(confidence: real): (c: Certainty)
    ensures c == VeryHigh <==> confidence > 90.0
    ensures c == High <==> 70.0 < confidence <= 90.0
    ensures c == Moderate <==> 50.0 < confidence <= 70.0
    ensures c == Low <==> confidence <= 50.0
  {
    if confidence > 90.0 then VeryHigh
    else if confidence > 70.0 then High
    else if confidence > 50.0 then Moderate
    else Low
  }

  /** The low tier is reached only by a prediction of exactly one half. */
  lemma LowOnlyAtHalf(prediction: real)
    requires 0.0 <= prediction <= 1.0
    ensures CertaintyOf(Classify(prediction).confidence) == Low <==> prediction == 0.5
  {
    ConfidenceBounds(prediction);
  }

  /** The two bars of the chart, cat then dog, in percent. */
  datatype Chart = Chart(cat: real, dog: real)

  /** The two bars of the chart: they sum to 100, and neither is negative for a prediction in [0, 1]. */
  function ChartOf(prediction: real): (ch: Chart)
    ensures ch.cat + ch.dog == 100.0
    ensures 0.0 <= prediction <= 1.0 ==> 0.0 <= ch.cat && 0.0 <= ch.dog
  {
    Chart((1.0 - prediction) * 100.0, prediction * 100.0)
  }

  /** The confidence is the bar of the chosen label, which is the taller one. */
  lemma ChartAgreesWithVerdict(prediction: real)
    ensures var v, ch := Classify(prediction), ChartOf(prediction);
      v.confidence == (if v.animal == Dog then ch.dog else ch.cat)
      && (v.animal == Dog ==> ch.dog > ch.cat)
      && (v.animal == Cat ==> ch.cat >= ch.dog)
  {
  }

  // ---------------------------------------------------------------------------
  // testar_imagem and main

  const DefaultModelPath: Path := "classificador_gatos_cachorros.keras"

  /** What loading the model or the image does: succeed, or raise with a message. */
  datatype Load = Loaded | LoadError(message: string)

  datatype Outcome =
    | ModelLoadFailed(message: string)
    | ImageLoadFailed(message: string)
    | Predicted(verdict: Verdict, certainty: Certainty, chart: Chart, outputName: Path)

  /**
   * One run of `testar_imagem`: load the model, then the image, returning
   * early on either failure; otherwise predict, interpret and name the chart.
   * `predict` stands for the model applied to the preprocessed image.
   */
  function RunTest(imagePath: Path, modelPath: Path, loadModel: Path -> Load,
                     loadImage: Path -> Load, predict: Path -> real): (o: Outcome)
    ensures o.ModelLoadFailed? <==> loadModel(modelPath).LoadError?
    ensures o.ModelLoadFailed? ==> o.message == loadModel(modelPath).message
    ensures o.ImageLoadFailed? <==> loadModel(modelPath).Loaded? && loadImage(imagePath).LoadError?
    ensures o.ImageLoadFailed? ==> o.message == loadImage(imagePath).message
    ensures o.Predicted? ==>
      && o.verdict == Classify(predict(imagePath))
      && o.certainty == CertaintyOf(o.verdict.confidence)
      && o.chart == ChartOf(predict(imagePath))
      && o.outputName == OutputName(imagePath)
  {
    match loadModel(modelPath)
    case LoadError(m) => ModelLoadFailed(m)
    case Loaded =>
      match loadImage(imagePath)
      case LoadError(m) => ImageLoadFailed(m)
      case Loaded =>
        var p := predict(imagePath);
        var v := Classify(p);
        Predicted(v, CertaintyOf(v.confidence), ChartOf(p), OutputName(imagePath))
  }

  /** A failed load returns before the prediction is made: the outcome does not depend on it. */
  lemma FailureIgnoresPrediction(imagePath: Path, modelPath: Path, loadModel: Path -> Load,
                                 loadImage: Path -> Load, predict: Path -> real, other: Path -> real)
    requires loadModel(modelPath).LoadError? || loadImage(imagePath).LoadError?
    ensures RunTest(imagePath, modelPath, loadModel, loadImage, predict)
         == RunTest(imagePath, modelPath, loadModel, loadImage, other)
    ensures !RunTest(imagePath, modelPath, loadModel, loadImage, predict).Predicted?
  {
  }

  datatype Run = Usage | Tested(imagePath: Path, outcome: Outcome)

  /**
   * `main`: with fewer than two command-line arguments, print the usage and
   * test nothing; otherwise test `argv[1]` with the default model.
   */
  function RunMain(argv: seq<string>, loadModel: Path -> Load, loadImage: Path -> Load,
                   predict: Path -> real): (r: Run)
    ensures r.Usage? <==> |argv| < 2
    ensures r.Tested? ==>
      && r.imagePath == argv[1]
      && r.outcome == RunTest(argv[1], DefaultModelPath, loadModel, loadImage, predict)
  {
    if |argv| < 2 then Usage
    else Tested(argv[1], RunTest(argv[1], DefaultModelPath, loadModel, loadImage, predict))
  }
}
