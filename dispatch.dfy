// The extension methods that pick a processor from an enumeration value
// and hand it to the operations object: DetectEdges
// (src/ImageSharp/Processing/Convolution/DetectEdges.cs), ColorBlindness
// (src/ImageSharp/Processing/ColorMatrix/ColorBlindness.cs), Quantize
// (src/ImageSharp/Quantizers/Quantize.cs) and Grayscale
// (src/ImageSharp/Processing/ColorMatrix/Grayscale.cs). Each overload is
// described by the processor it builds and the rectangle it passes on; a
// C# enumeration can hold any integer, so each has a case for the values
// it does not name.

module Dispatch {
  import opened Wrappers
  import opened Geometry

  // ---- Enumerations ----

  datatype EdgeDetection =
    | Kayyali | Kirsch | Lapacian3X3 | Lapacian5X5 | LaplacianOfGaussian
    | Prewitt | RobertsCross | Robinson | Scharr | Sobel
    | UnnamedEdgeDetection(code: int)

  datatype ColorBlindness =
    | Achromatomaly | Achromatopsia | Deuteranomaly | Deuteranopia
    | Protanomaly | Protanopia | Tritanomaly | Tritanopia
    | UnnamedColorBlindness(code: int)

  datatype Quantization = Octree | Palette | Wu | UnnamedQuantization(code: int)

  datatype GrayscaleMode = Bt709 | Bt601 | UnnamedGrayscaleMode(code: int)

  // ---- Processors ----

  datatype EdgeDetectorKind =
    | KayyaliProcessor | KirschProcessor | Laplacian3X3Processor | Laplacian5X5Processor
    | LaplacianOfGaussianProcessor | PrewittProcessor | RobertsCrossProcessor
    | RobinsonProcessor | ScharrProcessor | SobelProcessor

  datatype ColorBlindnessKind =
    | AchromatomalyProcessor | AchromatopsiaProcessor | DeuteranomalyProcessor
    | DeuteranopiaProcessor | ProtanomalyProcessor | ProtanopiaProcessor
    | TritanomalyProcessor | TritanopiaProcessor

  datatype QuantizerKind = OctreeQuantizer | PaletteQuantizer | WuQuantizer

  datatype GrayscaleKind = GrayscaleBt709Processor | GrayscaleBt601Processor

  /** A processor the extension methods build, with the settings they give it. */
  datatype Processor =
    | EdgeDetector(edge: EdgeDetectorKind, grayscale: bool)
    | ColorBlindnessFilter(blindness: ColorBlindnessKind)
    | QuantizeProcessor(quantizer: QuantizerKind, maxColors: int)
    | GrayscaleFilter(gray: GrayscaleKind)

  /**
   * What an overload hands to the operations object before returning it:
   * the processor and either a rectangle or, for ApplyProcessor(processor),
   * the image's bounds.
   */
  datatype Applied = Applied(processor: Processor, rectangle: Option<Rectangle>)

  // ---- DetectEdges ----

  /** The default of the grayscale parameter. */
  const DefaultGrayscale: bool := true

  /** The enumeration value each edge detector stands for: the partner of GetEdgeProcessor. */
  function EdgeDetectionOf(kind: EdgeDetectorKind): EdgeDetection {
    match kind
    case KayyaliProcessor => Kayyali
    case KirschProcessor => Kirsch
    case Laplacian3X3Processor => Lapacian3X3
    case Laplacian5X5Processor => Lapacian5X5
    case LaplacianOfGaussianProcessor => LaplacianOfGaussian
    case PrewittProcessor => Prewitt
    case RobertsCrossProcessor => RobertsCross
    case RobinsonProcessor => Robinson
    case ScharrProcessor => Scharr
    case SobelProcessor => Sobel
  }

  /**
   * GetProcessor of DetectEdges: every named value gets its own detector,
   * every other value Sobel, and the grayscale flag is passed on as it is.
   */
  function GetEdgeProcessor(filter: EdgeDetection, grayscale: bool): (p: Processor)
    ensures p.EdgeDetector? && p.grayscale == grayscale
    ensures !filter.UnnamedEdgeDetection? ==> EdgeDetectionOf(p.edge) == filter
    ensures filter.UnnamedEdgeDetection? ==> p.edge == SobelProcessor
  {
    var kind :=
      match filter
      case Kayyali => KayyaliProcessor
      case Kirsch => KirschProcessor
      case Lapacian3X3 => Laplacian3X3Processor
      case Lapacian5X5 => Laplacian5X5Processor
      case LaplacianOfGaussian => LaplacianOfGaussianProcessor
      case Prewitt => PrewittProcessor
      case RobertsCross => RobertsCrossProcessor
      case Robinson => RobinsonProcessor
      case Scharr => ScharrProcessor
      case _ => SobelProcessor;
    EdgeDetector(kind, grayscale)
  }

  /** Every detector is chosen by exactly the value it stands for, and by unnamed values only if it is Sobel. */
  lemma EdgeProcessorChoice(kind: EdgeDetectorKind, filter: EdgeDetection, grayscale: bool)
    ensures GetEdgeProcessor(filter, grayscale).edge == kind <==>
      filter == EdgeDetectionOf(kind) || (kind == SobelProcessor && filter.UnnamedEdgeDetection?)
  {
  }

  /** DetectEdges(filter, grayscale): the chosen detector over the whole image. */
  function DetectEdgesWith(filter: EdgeDetection, grayscale: bool): Applied {
    DetectEdgesBy(GetEdgeProcessor(filter, grayscale))
  }

  /** DetectEdges(filter, rectangle, grayscale): the chosen detector over the rectangle. */
  function DetectEdgesWithIn(filter: EdgeDetection, r: Rectangle, grayscale: bool): Applied {
    DetectEdgesByIn(r, GetEdgeProcessor(filter, grayscale))
  }

  /** DetectEdges(): Sobel in grayscale over the whole image. */
  function DetectEdges(): (a: Applied)
    ensures a == Applied(EdgeDetector(SobelProcessor, true), None)
  {
    DetectEdgesBy(EdgeDetector(SobelProcessor, true))
  }

  /** DetectEdges(rectangle): Sobel in grayscale over the rectangle. */
  function DetectEdgesIn(r: Rectangle): (a: Applied)
    ensures a == Applied(EdgeDetector(SobelProcessor, true), Some(r))
  {
    DetectEdgesByIn(r, EdgeDetector(SobelProcessor, true))
  }

  /** DetectEdges(processor): the given processor over the whole image. */
  function DetectEdgesBy(p: Processor): Applied {
    Applied(p, None)
  }

  /** DetectEdges(rectangle, processor): the given processor over the rectangle. */
  function DetectEdgesByIn(r: Rectangle, p: Processor): Applied {
    Applied(p, Some(r))
  }

  /**
   * The overloads without a filter are the filter overloads with Sobel and
   * the default grayscale flag; every overload passes the flag through and
   * the rectangle overloads differ from the others only in the rectangle.
   */
  lemma DetectEdgesOverloads(filter: EdgeDetection, r: Rectangle, grayscale: bool)
    ensures DetectEdges() == DetectEdgesWith(Sobel, DefaultGrayscale)
    ensures DetectEdgesIn(r) == DetectEdgesWithIn(Sobel, r, DefaultGrayscale)
    ensures DetectEdgesWith(filter, grayscale).processor == DetectEdgesWithIn(filter, r, grayscale).processor
    ensures DetectEdgesWith(filter, grayscale).rectangle == None
    ensures DetectEdgesWithIn(filter, r, grayscale).rectangle == Some(r)
    ensures DetectEdgesWith(filter, grayscale).processor.grayscale == grayscale
  {
  }

  // ---- ColorBlindness ----

  /** The enumeration value each simulator stands for: the partner of GetColorBlindnessProcessor. */
  function ColorBlindnessOf(kind: ColorBlindnessKind): ColorBlindness {
    match kind
    case AchromatomalyProcessor => Achromatomaly
    case AchromatopsiaProcessor => Achromatopsia
    case DeuteranomalyProcessor => Deuteranomaly
    case DeuteranopiaProcessor => Deuteranopia
    case ProtanomalyProcessor => Protanomaly
    case ProtanopiaProcessor => Protanopia
    case TritanomalyProcessor => Tritanomaly
    case TritanopiaProcessor => Tritanopia
  }

  /** GetProcessor of ColorBlindness: each named value gets its own simulator, every other value Tritanopia's. */
  function GetColorBlindnessProcessor(blindness: ColorBlindness): (p: Processor)
    ensures p.ColorBlindnessFilter?
    ensures !blindness.UnnamedColorBlindness? ==> ColorBlindnessOf(p.blindness) == blindness
    ensures blindness.UnnamedColorBlindness? ==> p.blindness == TritanopiaProcessor
  {
    var kind :=
      match blindness
      case Achromatomaly => AchromatomalyProcessor
      case Achromatopsia => AchromatopsiaProcessor
      case Deuteranomaly => DeuteranomalyProcessor
      case Deuteranopia => DeuteranopiaProcessor
      case Protanomaly => ProtanomalyProcessor
      case Protanopia => ProtanopiaProcessor
      case Tritanomaly => TritanomalyProcessor
      case _ => TritanopiaProcessor;
    ColorBlindnessFilter(kind)
  }

  /** Every simulator is chosen by exactly the value it stands for, and by unnamed values only if it is Tritanopia's. */
  lemma ColorBlindnessProcessorChoice(kind: ColorBlindnessKind, blindness: ColorBlindness)
    ensures GetColorBlindnessProcessor(blindness).blindness == kind <==>
      blindness == ColorBlindnessOf(kind) || (kind == TritanopiaProcessor && blindness.UnnamedColorBlindness?)
  {
  }

  /** ColorBlindness(value): the simulator over the whole image. */
  function ApplyColorBlindness(blindness: ColorBlindness): (a: Applied)
    ensures a.rectangle == None && a.processor == GetColorBlindnessProcessor(blindness)
  {
    Applied(GetColorBlindnessProcessor(blindness), None)
  }

  /** ColorBlindness(value, rectangle): the simulator over the rectangle. */
  function ApplyColorBlindnessIn(blindness: ColorBlindness, r: Rectangle): (a: Applied)
    ensures a.rectangle == Some(r) && a.processor == ApplyColorBlindness(blindness).processor
  {
    Applied(GetColorBlindnessProcessor(blindness), Some(r))
  }

  // ---- Quantize ----

  const DefaultQuantization: Quantization := Octree
  const DefaultMaxColors: int := 256

  /** The quantizer Quantize picks: Wu and Palette their own, every other mode Octree. */
  function SelectQuantizer(mode: Quantization): (q: QuantizerKind)
    ensures q == WuQuantizer <==> mode == Wu
    ensures q == PaletteQuantizer <==> mode == Palette
    ensures q == OctreeQuantizer <==> mode != Wu && mode != Palette
  {
    match mode
    case Wu => WuQuantizer
    case Palette => PaletteQuantizer
    case _ => OctreeQuantizer
  }

  /** Quantize(quantizer, maxColors): a QuantizeProcessor with both, over the whole image. */
  function QuantizeWith(quantizer: QuantizerKind, maxColors: int): Applied {
    Applied(QuantizeProcessor(quantizer, maxColors), None)
  }

  /** Quantize(mode, maxColors): the selected quantizer, with maxColors passed on unchanged. */
  function Quantize(mode: Quantization, maxColors: int): (a: Applied)
    ensures a.rectangle == None && a.processor.QuantizeProcessor?
    ensures a.processor.maxColors == maxColors && a.processor.quantizer == SelectQuantizer(mode)
  {
    QuantizeWith(SelectQuantizer(mode), maxColors)
  }

  /** With its defaults, Quantize uses the Octree quantizer and 256 colours. */
  lemma QuantizeDefaults()
    ensures Quantize(DefaultQuantization, DefaultMaxColors) == Applied(QuantizeProcessor(OctreeQuantizer, 256), None)
  {
  }

  // ---- Grayscale ----

  /** Grayscale(mode) picks the BT.709 processor for Bt709 and the BT.601 one for every other value. */
  function GrayscaleProcessorFor(mode: GrayscaleMode): (p: Processor)
    ensures p.GrayscaleFilter?
    ensures p.gray == GrayscaleBt709Processor <==> mode == Bt709
  {
    GrayscaleFilter(if mode == Bt709 then GrayscaleBt709Processor else GrayscaleBt601Processor)
  }

  /** Grayscale(mode): over the whole image. */
  function Grayscale(mode: GrayscaleMode): Applied {
    Applied(GrayscaleProcessorFor(mode), None)
  }

  /** Grayscale(mode, rectangle): over the rectangle. */
  function GrayscaleIn(mode: GrayscaleMode, r: Rectangle): Applied {
    Applied(GrayscaleProcessorFor(mode), Some(r))
  }

  /** Without a mode both overloads use BT.709; an unnamed mode gets BT.601. */
  lemma GrayscaleOverloads(r: Rectangle, code: int)
    ensures Grayscale(Bt709) == Applied(GrayscaleFilter(GrayscaleBt709Processor), None)
    ensures GrayscaleIn(Bt709, r) == Applied(GrayscaleFilter(GrayscaleBt709Processor), Some(r))
    ensures Grayscale(UnnamedGrayscaleMode(code)).processor == Grayscale(Bt601).processor
  {
  }
}
