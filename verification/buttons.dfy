/**
 * Class-name merging for the button component (`getButtonClasses` in
 * src/components/ui/buttons.tsx): the base class string is assembled from
 * the variant and size tables, split on spaces, stripped of every base class
 * that a caller-supplied class overrides, and joined with the caller's
 * classes after it.
 */
module Buttons {
  import opened Strings

  datatype Variant = Primary | Secondary | BlackVariant | Outline | Dark | Ghost | TextVariant | Navbar
  datatype Size = Sm | Md | Lg

  /** `buttonVariants`, one class per entry, in the order the string lists them. */
  function VariantTokens(v: Variant): seq<string> {
    match v
    case Primary => ["bg-primary-500", "hover:bg-primary-600", "text-white"]
    case Secondary => ["bg-accent-500", "hover:bg-accent-600", "text-white"]
    case BlackVariant => ["bg-black", "hover:bg-gray-800", "text-white"]
    case Outline => ["border-2", "border-white", "text-white", "hover:bg-white", "hover:text-black"]
    case Dark => ["border-2", "border-black", "text-black", "hover:bg-black", "hover:text-white"]
    case Ghost => ["text-primary-500", "hover:bg-primary-50"]
    case TextVariant => ["text-white", "hover:text-gray-300", "underline", "text-button"]
    case Navbar => ["bg-white", "hover:bg-gray-100", "text-black"]
  }

  /** `buttonSizes`. */
  function ButtonSizeTokens(s: Size): seq<string> {
    match s
    case Sm => ["px-4", "py-2", "text-sm"]
    case Md => ["px-6", "py-3", "text-sm"]
    case Lg => ["px-8", "py-4", "text-base"]
  }

  /** `textButtonSizes`. */
  function TextButtonSizeTokens(s: Size): seq<string> {
    match s
    case Sm => ["px-1", "py-1", "text-sm"]
    case Md => ["px-2", "py-1", "text-base"]
    case Lg => ["px-2", "py-1", "text-lg"]
  }

  /** The layout classes that open `baseClasses`; the text variant leaves an empty class where the radius goes. */
  function LayoutTokens(v: Variant): (r: seq<string>)
    ensures |r| == 11
  {
    ["inline-flex", "items-center", "justify-center", if v == TextVariant then "" else "rounded-full",
     "font-medium", "transition-colors", "gap-2", "focus:outline-none", "focus:ring-2",
     "focus:ring-accent-500", "focus:ring-offset-2"]
  }

  /** The padding and text size: `textButtonSizes` for the text variant, else `buttonSizes`. */
  function SizeTokens(v: Variant, s: Size): (r: seq<string>)
    ensures |r| == 3
  {
    if v == TextVariant then TextButtonSizeTokens(s) else ButtonSizeTokens(s)
  }

  /** The classes for the disabled state. */
  function StateTokens(disabled: bool): (r: seq<string>)
    ensures |r| == (if disabled then 2 else 1)
  {
    if disabled then ["opacity-50", "cursor-not-allowed"] else ["cursor-pointer"]
  }

  /** The classes of `baseClasses`, in template order. */
  function BaseTokens(v: Variant, s: Size, disabled: bool): seq<string> {
    LayoutTokens(v) + SizeTokens(v, s) + StateTokens(disabled) + VariantTokens(v)
  }

  /** The template string `baseClasses`: its pieces separated by single spaces. */
  function BaseClasses(v: Variant, s: Size, disabled: bool): string {
    Join(BaseTokens(v, s, disabled), " ")
  }

  /** The prefix rules under which a caller's class replaces a base class. */
  predicate Overrides(base: string, custom: string) {
    || (StartsWith(base, "w-") && StartsWith(custom, "w-"))
    || (StartsWith(base, "h-") && StartsWith(custom, "h-"))
    || (StartsWith(base, "px-") && StartsWith(custom, "px-"))
    || (StartsWith(base, "py-") && StartsWith(custom, "py-"))
    || (base == "px-6" && StartsWith(custom, "p-"))
    || (base == "py-3" && StartsWith(custom, "p-"))
    || (StartsWith(base, "rounded") && StartsWith(custom, "rounded"))
    || (StartsWith(base, "bg-") && StartsWith(custom, "bg-"))
    || (StartsWith(base, "text-") && StartsWith(custom, "text-"))
  }

  /** `customClasses.some(...)`. */
  predicate Overridden(base: string, customs: seq<string>) {
    exists c :: c in customs && Overrides(base, c)
  }

  /** `className.split(' ').filter(cls => cls.trim())`: the pieces that are not blank, in order. */
  function CustomTokens(parts: seq<string>): (r: seq<string>)
    ensures forall t :: t in r <==> t in parts && Trim(t) != ""
    ensures |r| <= |parts|
    decreases |parts|
  {
    if parts == [] then []
    else (if Trim(parts[0]) != "" then [parts[0]] else []) + CustomTokens(parts[1..])
  }

  /** `baseClasses.split(' ').filter(...)`: the base classes no caller class overrides, in order. */
  function KeepBase(parts: seq<string>, customs: seq<string>): (r: seq<string>)
    ensures forall t :: t in r <==> t in parts && !Overridden(t, customs)
    ensures |r| <= |parts|
    decreases |parts|
  {
    if parts == [] then []
    else (if !Overridden(parts[0], customs) then [parts[0]] else []) + KeepBase(parts[1..], customs)
  }

  /** Filtering the custom pieces works piece by piece: a concatenation keeps the two parts' tokens, in order. */
  lemma {:induction false} CustomTokensAppend(a: seq<string>, b: seq<string>)
    ensures CustomTokens(a + b) == CustomTokens(a) + CustomTokens(b)
    decreases |a|
  {
    if a != [] {
      assert (a + b)[0] == a[0];
      assert (a + b)[1..] == a[1..] + b;
      CustomTokensAppend(a[1..], b);
    } else {
      assert a + b == b;
    }
  }

  /** One piece is kept as it is, or dropped when it is blank. */
  lemma CustomTokensOne(p: string)
    ensures CustomTokens([p]) == (if Trim(p) == "" then [] else [p])
  {
    assert [p][1..] == [];
  }

  /** Filtering the base classes works class by class: a concatenation keeps the two parts' survivors, in order. */
  lemma {:induction false} KeepBaseAppend(a: seq<string>, b: seq<string>, customs: seq<string>)
    ensures KeepBase(a + b, customs) == KeepBase(a, customs) + KeepBase(b, customs)
    decreases |a|
  {
    if a != [] {
      assert (a + b)[0] == a[0];
      assert (a + b)[1..] == a[1..] + b;
      KeepBaseAppend(a[1..], b, customs);
    } else {
      assert a + b == b;
    }
  }

  /** One base class is kept as it is, or dropped when a caller class overrides it. */
  lemma KeepBaseOne(p: string, customs: seq<string>)
    ensures KeepBase([p], customs) == (if Overridden(p, customs) then [] else [p])
  {
    assert [p][1..] == [];
  }

  /** `getButtonClasses`. */
  function ButtonClasses(v: Variant, s: Size, disabled: bool, className: string): string {
    var customs := CustomTokens(Split(className, ' '));
    Join(KeepBase(Split(BaseClasses(v, s, disabled), ' '), customs) + customs, " ")
  }

  // ----- Properties -----

  predicate SpaceFree(t: string) {
    ' ' !in t
  }

  predicate AllSpaceFree(ts: seq<string>) {
    forall i :: 0 <= i < |ts| ==> SpaceFree(ts[i])
  }

  lemma TableTokensSpaceFree(v: Variant, s: Size)
    ensures AllSpaceFree(VariantTokens(v))
    ensures AllSpaceFree(ButtonSizeTokens(s)) && AllSpaceFree(TextButtonSizeTokens(s))
  {
    VariantSpaceFree(v);
    SizeSpaceFree(s);
  }

  lemma VariantSpaceFree(v: Variant)
    ensures AllSpaceFree(VariantTokens(v))
  {
    if v in {Primary, Secondary, BlackVariant, Navbar} {
      FilledSpaceFree(v);
    } else {
      OtherVariantSpaceFree(v);
    }
  }

  lemma FilledSpaceFree(v: Variant)
    requires v in {Primary, Secondary, BlackVariant, Navbar}
    ensures AllSpaceFree(VariantTokens(v))
  {
    match v
    case Primary => assert AllSpaceFree(["bg-primary-500", "hover:bg-primary-600", "text-white"]);
    case Secondary => assert AllSpaceFree(["bg-accent-500", "hover:bg-accent-600", "text-white"]);
    case BlackVariant => assert AllSpaceFree(["bg-black", "hover:bg-gray-800", "text-white"]);
    case Navbar => assert AllSpaceFree(["bg-white", "hover:bg-gray-100", "text-black"]);
  }

  lemma OtherVariantSpaceFree(v: Variant)
    requires v in {Outline, Dark, Ghost, TextVariant}
    ensures AllSpaceFree(VariantTokens(v))
  {
    match v
    case Outline => assert AllSpaceFree(["border-2", "border-white", "text-white", "hover:bg-white", "hover:text-black"]);
    case Dark => assert AllSpaceFree(["border-2", "border-black", "text-black", "hover:bg-black", "hover:text-white"]);
    case Ghost => assert AllSpaceFree(["text-primary-500", "hover:bg-primary-50"]);
    case TextVariant => assert AllSpaceFree(["text-white", "hover:text-gray-300", "underline", "text-button"]);
  }

  lemma SizeSpaceFree(s: Size)
    ensures AllSpaceFree(ButtonSizeTokens(s)) && AllSpaceFree(TextButtonSizeTokens(s))
  {
    match s
    case Sm => assert AllSpaceFree(["px-4", "py-2", "text-sm"]) && AllSpaceFree(["px-1", "py-1", "text-sm"]);
    case Md => assert AllSpaceFree(["px-6", "py-3", "text-sm"]) && AllSpaceFree(["px-2", "py-1", "text-base"]);
    case Lg => assert AllSpaceFree(["px-8", "py-4", "text-base"]) && AllSpaceFree(["px-2", "py-1", "text-lg"]);
  }

  lemma LayoutSpaceFree(v: Variant)
    ensures AllSpaceFree(LayoutTokens(v))
  {
  }

  lemma AppendSpaceFree(a: seq<string>, b: seq<string>)
    requires AllSpaceFree(a) && AllSpaceFree(b)
    ensures AllSpaceFree(a + b)
  {
  }

  /** None of the base classes holds a space. */
  lemma BaseTokensSpaceFree(v: Variant, s: Size, disabled: bool)
    ensures AllSpaceFree(BaseTokens(v, s, disabled))
  {
    TableTokensSpaceFree(v, s);
    LayoutSpaceFree(v);
    assert AllSpaceFree(StateTokens(disabled));
    AppendSpaceFree(LayoutTokens(v), SizeTokens(v, s));
    AppendSpaceFree(LayoutTokens(v) + SizeTokens(v, s), StateTokens(disabled));
    AppendSpaceFree(LayoutTokens(v) + SizeTokens(v, s) + StateTokens(disabled), VariantTokens(v));
  }

  /** Splitting the base string gives back its classes, blank ones included. */
  lemma SplitBase(v: Variant, s: Size, disabled: bool)
    ensures Split(BaseClasses(v, s, disabled), ' ') == BaseTokens(v, s, disabled)
  {
    BaseTokensSpaceFree(v, s, disabled);
    SplitJoin(BaseTokens(v, s, disabled), ' ');
  }

  /** With no caller classes nothing is filtered out. */
  lemma {:induction false} KeepAll(parts: seq<string>)
    ensures KeepBase(parts, []) == parts
    decreases |parts|
  {
    if parts != [] {
      KeepAll(parts[1..]);
    }
  }

  /** An empty `className` gives the base string itself: the split and join undo each other, blank classes included. */
  lemma EmptyClassName(v: Variant, s: Size, disabled: bool)
    ensures ButtonClasses(v, s, disabled, "") == BaseClasses(v, s, disabled)
  {
    assert Split("", ' ') == [""];
    assert CustomTokens([""]) == [];
    KeepAll(Split(BaseClasses(v, s, disabled), ' '));
    assert KeepBase(Split(BaseClasses(v, s, disabled), ' '), []) + [] == Split(BaseClasses(v, s, disabled), ' ');
    JoinSplit(BaseClasses(v, s, disabled), ' ');
  }

  /** A filter's output keeps the space-free property of its input. */
  lemma KeptSpaceFree(parts: seq<string>, customs: seq<string>)
    requires AllSpaceFree(parts)
    ensures AllSpaceFree(KeepBase(parts, customs))
  {
    var r := KeepBase(parts, customs);
    forall i | 0 <= i < |r| ensures SpaceFree(r[i]) {
      assert r[i] in r;
    }
  }

  lemma CustomSpaceFree(className: string)
    ensures AllSpaceFree(CustomTokens(Split(className, ' ')))
  {
    var parts := Split(className, ' ');
    var r := CustomTokens(parts);
    forall i | 0 <= i < |r| ensures SpaceFree(r[i]) {
      assert r[i] in parts;
      var k :| 0 <= k < |parts| && parts[k] == r[i];
      assert ' ' !in parts[k];
    }
  }

  /** Joining surviving base classes and caller classes with spaces and splitting again gives them back. */
  lemma MergeSplits(base: seq<string>, customs: seq<string>)
    requires AllSpaceFree(base) && AllSpaceFree(customs)
    requires |KeepBase(base, customs)| >= 1
    ensures var all := KeepBase(base, customs) + customs;
      Split(Join(all, " "), ' ') == all
  {
    var kept := KeepBase(base, customs);
    KeptSpaceFree(base, customs);
    var all := kept + customs;
    forall i | 0 <= i < |all| ensures ' ' !in all[i] {
      if i < |kept| {
        assert SpaceFree(kept[i]);
      } else {
        assert SpaceFree(customs[i - |kept|]);
      }
    }
    SplitJoin(all, ' ');
  }

  /** `inline-flex` is never overridden, so the base classes always leave one survivor. */
  lemma InlineFlexKept(v: Variant, s: Size, disabled: bool, customs: seq<string>)
    ensures |KeepBase(BaseTokens(v, s, disabled), customs)| >= 1
  {
    var base := BaseTokens(v, s, disabled);
    assert base[0] == "inline-flex";
    assert "inline-flex"[0] == 'i';
    assert "w-"[0] == 'w' && "h-"[0] == 'h' && "px-"[0] == 'p' && "py-"[0] == 'p';
    assert "rounded"[0] == 'r' && "bg-"[0] == 'b' && "text-"[0] == 't';
    assert !Overridden("inline-flex", customs);
    assert base[0] in KeepBase(base, customs);
  }

  /**
   * The classes of the result, in order: the surviving base classes in template
   * order, then every non-blank caller class in the order given.
   */
  lemma ResultTokens(v: Variant, s: Size, disabled: bool, className: string)
    ensures var customs := CustomTokens(Split(className, ' '));
      Split(ButtonClasses(v, s, disabled, className), ' ')
        == KeepBase(BaseTokens(v, s, disabled), customs) + customs
  {
    var customs := CustomTokens(Split(className, ' '));
    var base := BaseTokens(v, s, disabled);
    SplitBase(v, s, disabled);
    BaseTokensSpaceFree(v, s, disabled);
    CustomSpaceFree(className);
    InlineFlexKept(v, s, disabled, customs);
    MergeSplits(base, customs);
  }

  /** Which base classes survive: exactly those no caller class overrides. */
  lemma BaseSurvives(v: Variant, s: Size, disabled: bool, className: string, b: string)
    requires b in BaseTokens(v, s, disabled)
    ensures var customs := CustomTokens(Split(className, ' '));
      b in Split(ButtonClasses(v, s, disabled, className), ' ') <==> !Overridden(b, customs) || b in customs
  {
    ResultTokens(v, s, disabled, className);
  }

  /** Every caller class that is not blank appears in the result; a blank one is never among the caller classes kept. */
  lemma CustomSurvives(v: Variant, s: Size, disabled: bool, className: string, t: string)
    requires t in Split(className, ' ')
    ensures Trim(t) != "" ==> t in Split(ButtonClasses(v, s, disabled, className), ' ')
    ensures Trim(t) == "" ==> t !in CustomTokens(Split(className, ' '))
  {
    ResultTokens(v, s, disabled, className);
  }

  /** The text variant takes its padding from `textButtonSizes` and has no radius; every other variant uses `buttonSizes` and `rounded-full`. */
  lemma RadiusAndSizes(v: Variant, s: Size, disabled: bool)
    ensures BaseTokens(v, s, disabled)[3] == (if v == TextVariant then "" else "rounded-full")
    ensures BaseTokens(v, s, disabled)[11..14]
      == (if v == TextVariant then TextButtonSizeTokens(s) else ButtonSizeTokens(s))
  {
  }

  /** A disabled button gets `opacity-50 cursor-not-allowed`, an enabled one `cursor-pointer`. */
  lemma DisabledClasses(v: Variant, s: Size, disabled: bool)
    ensures disabled ==> BaseTokens(v, s, disabled)[14..16] == ["opacity-50", "cursor-not-allowed"]
    ensures !disabled ==> BaseTokens(v, s, disabled)[14] == "cursor-pointer"
    ensures BaseTokens(v, s, disabled)[(if disabled then 16 else 15)..] == VariantTokens(v)
  {
  }

  /** A caller's `p-...` class drops the medium size's `px-6` and `py-3`, but not the other sizes' padding. */
  lemma PaddingShorthand(custom: string)
    requires StartsWith(custom, "p-")
    ensures Overrides("px-6", custom) && Overrides("py-3", custom)
    ensures !Overrides("px-4", custom) && !Overrides("py-2", custom)
    ensures forall b :: Overrides(b, custom) <==> b == "px-6" || b == "py-3"
  {
    assert custom[0] == 'p' && custom[1] == '-';
    assert "px-"[1] == 'x' && "py-"[1] == 'y';
  }
}
