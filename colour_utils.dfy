/** The chained colour-code builder `colour_str`: an object holding a text
    and the list of terminal style codes applied to it so far. Each style
    method appends one code and returns the object itself; converting the
    object to a string wraps the text in the codes and a final reset. */
module ColourUtils {
  import opened Text

  /* colorama's constants: ANSI SGR escape sequences. */
  const ForeBlackCode: string := "\U{1B}[30m"
  const ForeRedCode: string := "\U{1B}[31m"
  const ForeGreenCode: string := "\U{1B}[32m"
  const ForeYellowCode: string := "\U{1B}[33m"
  const ForeBlueCode: string := "\U{1B}[34m"
  const BackRedCode: string := "\U{1B}[41m"
  const BackGreenCode: string := "\U{1B}[42m"
  const BackYellowCode: string := "\U{1B}[43m"
  const BackBlueCode: string := "\U{1B}[44m"
  const StyleBrightCode: string := "\U{1B}[1m"
  const StyleDimCode: string := "\U{1B}[2m"
  const ResetAll: string := "\U{1B}[0m"

  /** The eleven style methods of `colour_str`, one constructor each. */
  datatype Style =
    | Red | Green | Yellow | Blue | Black
    | Dim | Bright
    | BackRed | BackGreen | BackBlue | BackYellow

  /** The colorama constant each style method appends. */
  function Code(st: Style): string
  {
    match st
    case Red => ForeRedCode
    case Green => ForeGreenCode
    case Yellow => ForeYellowCode
    case Blue => ForeBlueCode
    case Black => ForeBlackCode
    case Dim => StyleDimCode
    case Bright => StyleBrightCode
    case BackRed => BackRedCode
    case BackGreen => BackGreenCode
    case BackBlue => BackBlueCode
    case BackYellow => BackYellowCode
  }

  /** Different style methods append different codes, and none of them is
      the reset code. */
  lemma CodesDistinct(a: Style, b: Style)
    ensures Code(a) == Code(b) ==> a == b
    ensures Code(a) != ResetAll
  {
  }

  function CodesOf(styles: seq<Style>): (r: seq<string>)
    ensures |r| == |styles|
    ensures forall i :: 0 <= i < |styles| ==> r[i] == Code(styles[i])
  {
    seq(|styles|, i requires 0 <= i < |styles| => Code(styles[i]))
  }

  /** `__str__` as a function of the object's state. */
  function Render(s: string, codes: seq<string>): string
  {
    if codes == [] then s else Join("", codes) + s + ResetAll
  }

  /** Sum of the code lengths. */
  function CodesLength(codes: seq<string>): nat
  {
    if codes == [] then 0 else |codes[0]| + CodesLength(codes[1..])
  }

  lemma {:induction false} JoinLength(codes: seq<string>)
    ensures |Join("", codes)| == CodesLength(codes)
  {
    if |codes| > 1 {
      JoinLength(codes[1..]);
    }
  }

  /** An object with no codes renders as exactly its text. */
  lemma RenderPlain(s: string)
    ensures Render(s, []) == s
  {
  }

  /** Adding one code puts it after all earlier codes, right before the
      text: codes show in the order they were applied. */
  lemma RenderAppend(s: string, codes: seq<string>, code: string)
    ensures Render(s, codes + [code]) == Join("", codes) + code + s + ResetAll
  {
    JoinEmptyAppend(codes, code);
  }

  /** With at least one code, the rendering is as long as the codes, the
      text and the reset together, and it ends with the text and the reset. */
  lemma RenderShape(s: string, codes: seq<string>)
    requires codes != []
    ensures |Render(s, codes)| == CodesLength(codes) + |s| + |ResetAll|
    ensures |Render(s, codes)| >= |s + ResetAll|
    ensures Render(s, codes)[|Render(s, codes)| - |s + ResetAll|..] == s + ResetAll
  {
    JoinLength(codes);
    var r := Render(s, codes);
    assert r == Join("", codes) + (s + ResetAll);
  }

  /** The rendering of a chain of style calls, in application order. */
  lemma RenderChain(s: string, styles: seq<Style>)
    requires styles != []
    ensures Render(s, CodesOf(styles)) == Join("", CodesOf(styles[..|styles| - 1])) + Code(styles[|styles| - 1]) + s + ResetAll
  {
    var n := |styles| - 1;
    assert CodesOf(styles) == CodesOf(styles[..n]) + [Code(styles[n])];
    RenderAppend(s, CodesOf(styles[..n]), Code(styles[n]));
  }

  /** An empty text with codes renders as just the codes and the reset. */
  lemma RenderEmptyText(codes: seq<string>)
    requires codes != []
    ensures Render("", codes) == Join("", codes) + ResetAll
  {
  }

  class ColourStr {
    var s: string
    var codes: seq<string>

    constructor (s: string)
      ensures this.s == s && codes == []
      ensures ToString() == s
    {
      this.s := s;
      codes := [];
    }

    /** `str(obj)`: reads the state and changes nothing. */
    function ToString(): string
      reads this
    {
      Render(s, codes)
    }

    /** `_add_style`: append one code and return the object itself. */
    method AddStyle(code: string) returns (self: ColourStr)
      modifies this
      ensures self == this
      ensures s == old(s) && codes == old(codes) + [code]
      ensures ToString() == Join("", old(codes)) + code + s + ResetAll
    {
      codes := codes + [code];
      self := this;
      RenderAppend(s, old(codes), code);
    }

    method Red() returns (self: ColourStr)
      modifies this
      ensures self == this && s == old(s) && codes == old(codes) + [ForeRedCode]
    {
      self := AddStyle(ForeRedCode);
    }

    method Green() returns (self: ColourStr)
      modifies this
      ensures self == this && s == old(s) && codes == old(codes) + [ForeGreenCode]
    {
      self := AddStyle(ForeGreenCode);
    }

    method Yellow() returns (self: ColourStr)
      modifies this
      ensures self == this && s == old(s) && codes == old(codes) + [ForeYellowCode]
    {
      self := AddStyle(ForeYellowCode);
    }

    method Blue() returns (self: ColourStr)
      modifies this
      ensures self == this && s == old(s) && codes == old(codes) + [ForeBlueCode]
    {
      self := AddStyle(ForeBlueCode);
    }

    method Black() returns (self: ColourStr)
      modifies this
      ensures self == this && s == old(s) && codes == old(codes) + [ForeBlackCode]
    {
      self := AddStyle(ForeBlackCode);
    }

    method Dim() returns (self: ColourStr)
      modifies this
      ensures self == this && s == old(s) && codes == old(codes) + [StyleDimCode]
    {
      self := AddStyle(StyleDimCode);
    }

    method Bright() returns (self: ColourStr)
      modifies this
      ensures self == this && s == old(s) && codes == old(codes) + [StyleBrightCode]
    {
      self := AddStyle(StyleBrightCode);
    }

    method BackRed() returns (self: ColourStr)
      modifies this
      ensures self == this && s == old(s) && codes == old(codes) + [BackRedCode]
    {
      self := AddStyle(BackRedCode);
    }

    method BackGreen() returns (self: ColourStr)
      modifies this
      ensures self == this && s == old(s) && codes == old(codes) + [BackGreenCode]
    {
      self := AddStyle(BackGreenCode);
    }

    method BackBlue() returns (self: ColourStr)
      modifies this
      ensures self == this && s == old(s) && codes == old(codes) + [BackBlueCode]
    {
      self := AddStyle(BackBlueCode);
    }

    method BackYellow() returns (self: ColourStr)
      modifies this
      ensures self == this && s == old(s) && codes == old(codes) + [BackYellowCode]
    {
      self := AddStyle(BackYellowCode);
    }

    /** Calls the style method that `st` names. */
    method Apply(st: Style) returns (self: ColourStr)
      modifies this
      ensures self == this && s == old(s) && codes == old(codes) + [Code(st)]
    {
      match st
      case Red => self := Red();
      case Green => self := Green();
      case Yellow => self := Yellow();
      case Blue => self := Blue();
      case Black => self := Black();
      case Dim => self := Dim();
      case Bright => self := Bright();
      case BackRed => self := BackRed();
      case BackGreen => self := BackGreen();
      case BackBlue => self := BackBlue();
      case BackYellow => self := BackYellow();
    }
  }

  /** `str(colour_str(text).m1().m2()...)`: build a fresh object, call the
      style methods in order on the object each call returns (the same
      object every time), and render it. */
  method Chain(text: string, styles: seq<Style>) returns (r: string)
    ensures styles == [] ==> r == text
    ensures styles != [] ==> r == Join("", CodesOf(styles)) + text + ResetAll
  {
    var cs := new ColourStr(text);
    var i := 0;
    while i < |styles|
      invariant 0 <= i <= |styles|
      invariant cs.s == text && cs.codes == CodesOf(styles[..i])
    {
      var next := cs.Apply(styles[i]);
      assert next == cs;
      assert CodesOf(styles[..i + 1]) == CodesOf(styles[..i]) + [Code(styles[i])];
      i := i + 1;
    }
    assert styles[..i] == styles;
    r := cs.ToString();
  }
}
