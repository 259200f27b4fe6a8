/** The deck-state class synchroniser of the talk's slide script (`Talk` in
    app/javascripts/app.js). Whenever the present slide changes, the slide container's
    `layout--*` classes are recomputed from the present slide's `slide--*` classes; every
    other container class is left where it was. */
module Talk {
  import opened ClassStrings
  import opened Lodash

  const SlidePrefix: string := "slide--"
  const LayoutPrefix: string := "layout--"

  /** A class carried by a slide to describe its layout, `slide--<name>`. */
  predicate IsSlideClass(c: string)
  {
    StartsWith(c, SlidePrefix)
  }

  /** A class the synchroniser owns on the container, `layout--<name>`. */
  predicate IsLayoutClass(c: string)
  {
    StartsWith(c, LayoutPrefix)
  }

  /** The test of the `_.reject` call: container classes that are not layout classes stay. */
  predicate IsKeptContainerClass(c: string)
  {
    !IsLayoutClass(c)
  }

  /** `className.replace('slide--', 'layout--')`. Applied only to slide classes, whose
      first occurrence of `slide--` is the prefix, so it rewrites exactly the prefix. */
  function ToLayoutClass(c: string): (r: string)
    ensures IsSlideClass(c) ==> r == LayoutPrefix + c[|SlidePrefix|..] && IsLayoutClass(r)
  {
    ReplaceFirst(c, SlidePrefix, LayoutPrefix)
  }

  /** `slide--X` is rewritten to `layout--X`, whatever `X` is. */
  lemma ToLayoutClassRenames(name: string)
    ensures ToLayoutClass(SlidePrefix + name) == LayoutPrefix + name
  {
    var c := SlidePrefix + name;
    assert c[..|SlidePrefix|] == SlidePrefix && c[|SlidePrefix|..] == name;
  }

  /** The container classes that survive a synchronisation (the `_.reject` call). */
  function KeptClasses(containerClasses: seq<string>): seq<string>
  {
    Filter(containerClasses, IsKeptContainerClass)
  }

  /** The container classes derived from the present slide (the `_.filter` then `_.map` calls). */
  function DerivedLayoutClasses(slideClasses: seq<string>): seq<string>
  {
    Map(Filter(slideClasses, IsSlideClass), ToLayoutClass)
  }

  /** The new container class list computed by `setGlobalStateClasses` (the `_.concat` call). */
  function Sync(containerClasses: seq<string>, slideClasses: seq<string>): seq<string>
  {
    KeptClasses(containerClasses) + DerivedLayoutClasses(slideClasses)
  }

  /** Every derived class is a layout class. */
  lemma DerivedAreLayoutClasses(slideClasses: seq<string>)
    ensures forall i :: 0 <= i < |DerivedLayoutClasses(slideClasses)| ==>
      IsLayoutClass(DerivedLayoutClasses(slideClasses)[i])
  {
  }

  /** The non-layout classes of the result are exactly the container's non-layout
      classes, in their original relative order and with their multiplicities. */
  lemma SyncKeepsOtherClasses(containerClasses: seq<string>, slideClasses: seq<string>)
    ensures Filter(Sync(containerClasses, slideClasses), IsKeptContainerClass)
         == Filter(containerClasses, IsKeptContainerClass)
  {
    var kept := KeptClasses(containerClasses);
    var derived := DerivedLayoutClasses(slideClasses);
    DerivedAreLayoutClasses(slideClasses);
    FilterAppend(kept, derived, IsKeptContainerClass);
    FilterKeepsAll(kept, IsKeptContainerClass);
    FilterKeepsNone(derived, IsKeptContainerClass);
  }

  /** The layout classes of the result are exactly the present slide's `slide--X`
      classes rewritten to `layout--X`, one for one and in the slide's order: no layout
      class the container held before survives unless the slide derives it again. */
  lemma SyncLayoutClassesFromSlide(containerClasses: seq<string>, slideClasses: seq<string>)
    ensures |Filter(Sync(containerClasses, slideClasses), IsLayoutClass)|
         == |Filter(slideClasses, IsSlideClass)|
    ensures forall i :: 0 <= i < |Filter(slideClasses, IsSlideClass)| ==>
      Filter(Sync(containerClasses, slideClasses), IsLayoutClass)[i]
        == LayoutPrefix + Filter(slideClasses, IsSlideClass)[i][|SlidePrefix|..]
  {
    var kept := KeptClasses(containerClasses);
    var derived := DerivedLayoutClasses(slideClasses);
    DerivedAreLayoutClasses(slideClasses);
    FilterAppend(kept, derived, IsLayoutClass);
    FilterKeepsNone(kept, IsLayoutClass);
    FilterKeepsAll(derived, IsLayoutClass);
  }

  /** The derived layout classes are appended: every class after a layout class of the
      result is a layout class too. */
  lemma SyncLayoutClassesLast(containerClasses: seq<string>, slideClasses: seq<string>)
    ensures forall i, j :: 0 <= i < j < |Sync(containerClasses, slideClasses)| ==>
      (IsLayoutClass(Sync(containerClasses, slideClasses)[i]) ==>
       IsLayoutClass(Sync(containerClasses, slideClasses)[j]))
  {
    var kept := KeptClasses(containerClasses);
    var derived := DerivedLayoutClasses(slideClasses);
    DerivedAreLayoutClasses(slideClasses);
    var r := kept + derived;
    assert forall k :: 0 <= k < |kept| ==> r[k] == kept[k];
    assert forall k :: |kept| <= k < |r| ==> r[k] == derived[k - |kept|];
  }

  /** Membership in the result: a class is there exactly when it is a non-layout class of
      the container, or the layout form `layout--X` of a class `slide--X` of the present slide. */
  lemma SyncMembership(containerClasses: seq<string>, slideClasses: seq<string>, t: string)
    ensures t in Sync(containerClasses, slideClasses) <==>
      (t in containerClasses && !IsLayoutClass(t)) ||
      (exists c :: c in slideClasses && IsSlideClass(c) && t == LayoutPrefix + c[|SlidePrefix|..])
  {
    var slides := Filter(slideClasses, IsSlideClass);
    FilterMember(containerClasses, IsKeptContainerClass, t);
    if t in DerivedLayoutClasses(slideClasses) {
      var i :| 0 <= i < |slides| && t == ToLayoutClass(slides[i]);
      FilterMember(slideClasses, IsSlideClass, slides[i]);
    }
    if exists c :: c in slideClasses && IsSlideClass(c) && t == LayoutPrefix + c[|SlidePrefix|..] {
      var c :| c in slideClasses && IsSlideClass(c) && t == LayoutPrefix + c[|SlidePrefix|..];
      FilterMember(slideClasses, IsSlideClass, c);
      var i :| 0 <= i < |slides| && slides[i] == c;
      assert DerivedLayoutClasses(slideClasses)[i] == t;
    }
  }

  /** The only slide class rewritten to the layout class `layout--X` is `slide--X`. */
  lemma ToLayoutClassPreimage(c: string, t: string)
    requires IsSlideClass(c) && IsLayoutClass(t)
    ensures ToLayoutClass(c) == t <==> c == SlidePrefix + t[|LayoutPrefix|..]
  {
    var name := c[|SlidePrefix|..];
    assert c == SlidePrefix + name;
    assert t == LayoutPrefix + t[|LayoutPrefix|..];
    if ToLayoutClass(c) == t {
      assert (LayoutPrefix + name)[|LayoutPrefix|..] == name;
    }
  }

  /** Rewriting a sequence of slide classes produces `layout--X` as often as the sequence
      holds `slide--X`: distinct slide classes give distinct layout classes. */
  lemma {:induction false} LayoutClassCount(slides: seq<string>, t: string)
    requires forall i :: 0 <= i < |slides| ==> IsSlideClass(slides[i])
    requires IsLayoutClass(t)
    ensures multiset(Map(slides, ToLayoutClass))[t] == multiset(slides)[SlidePrefix + t[|LayoutPrefix|..]]
  {
    var source := SlidePrefix + t[|LayoutPrefix|..];
    if slides != [] {
      var c, rest := slides[0], slides[1..];
      assert forall i :: 0 <= i < |rest| ==> rest[i] == slides[i + 1];
      LayoutClassCount(rest, t);
      assert slides == [c] + rest;
      assert multiset(slides) == multiset{c} + multiset(rest);
      assert Map(slides, ToLayoutClass) == [ToLayoutClass(c)] + Map(rest, ToLayoutClass);
      assert multiset(Map(slides, ToLayoutClass)) == multiset{ToLayoutClass(c)} + multiset(Map(rest, ToLayoutClass));
      assert multiset(slides)[source] == (if c == source then 1 else 0) + multiset(rest)[source];
      assert multiset(Map(slides, ToLayoutClass))[t]
          == (if ToLayoutClass(c) == t then 1 else 0) + multiset(Map(rest, ToLayoutClass))[t];
      ToLayoutClassPreimage(c, t);
    }
  }

  /** A layout class occurs in the result exactly as often as its `slide--` form occurs on
      the present slide, whatever the container held before: the slide's classes are
      distinct, so each `slide--X` gives exactly one `layout--X`. */
  lemma SyncLayoutClassCount(containerClasses: seq<string>, slideClasses: seq<string>, t: string)
    requires IsLayoutClass(t)
    ensures multiset(Sync(containerClasses, slideClasses))[t]
         == multiset(slideClasses)[SlidePrefix + t[|LayoutPrefix|..]]
  {
    var slides := Filter(slideClasses, IsSlideClass);
    var source := SlidePrefix + t[|LayoutPrefix|..];
    LayoutClassCount(slides, t);
    assert IsSlideClass(source);
    FilterCount(slideClasses, IsSlideClass, source);
    FilterCount(containerClasses, IsKeptContainerClass, t);
  }

  /** A class that is not a layout class occurs in the result exactly as often as in the container. */
  lemma SyncOtherClassCount(containerClasses: seq<string>, slideClasses: seq<string>, t: string)
    requires !IsLayoutClass(t)
    ensures multiset(Sync(containerClasses, slideClasses))[t] == multiset(containerClasses)[t]
  {
    DerivedAreLayoutClasses(slideClasses);
    assert t !in DerivedLayoutClasses(slideClasses);
    FilterCount(containerClasses, IsKeptContainerClass, t);
  }

  /** A class of the present slide that is not a `slide--` class contributes nothing,
      wherever it stands among the slide's classes. */
  lemma {:induction false} SyncIgnoresOtherSlideClasses(containerClasses: seq<string>, before: seq<string>, c: string, after: seq<string>)
    requires !IsSlideClass(c)
    ensures Sync(containerClasses, before + [c] + after) == Sync(containerClasses, before + after)
  {
    assert Filter([c], IsSlideClass) == [] by {
      assert [c][1..] == [];
    }
    FilterAppend(before + [c], after, IsSlideClass);
    FilterAppend(before, [c], IsSlideClass);
    FilterAppend(before, after, IsSlideClass);
    assert Filter(before + [c], IsSlideClass) == Filter(before, IsSlideClass);
  }

  /** Synchronising twice with the same present slide gives the same classes as once. */
  lemma SyncIdempotent(containerClasses: seq<string>, slideClasses: seq<string>)
    ensures Sync(Sync(containerClasses, slideClasses), slideClasses) == Sync(containerClasses, slideClasses)
  {
    SyncKeepsOtherClasses(containerClasses, slideClasses);
  }

  /** When the present slide has no `slide--` class, the container is left without any
      layout class. */
  lemma SyncWithoutSlideClasses(containerClasses: seq<string>, slideClasses: seq<string>)
    requires forall i :: 0 <= i < |slideClasses| ==> !IsSlideClass(slideClasses[i])
    ensures forall i :: 0 <= i < |Sync(containerClasses, slideClasses)| ==>
      !IsLayoutClass(Sync(containerClasses, slideClasses)[i])
  {
    FilterKeepsNone(slideClasses, IsSlideClass);
  }

  /** The result has one class per kept container class and one per `slide--` class of the
      present slide, so never more than the two lists together. */
  lemma SyncLength(containerClasses: seq<string>, slideClasses: seq<string>)
    ensures |Sync(containerClasses, slideClasses)|
         == |Filter(containerClasses, IsKeptContainerClass)| + |Filter(slideClasses, IsSlideClass)|
    ensures |Sync(containerClasses, slideClasses)| <= |containerClasses| + |slideClasses|
  {
  }

  /** Duplicate container classes are not merged: `slides slides` stays as it is. */
  lemma SyncKeepsDuplicates()
    ensures Sync(["slides", "slides"], []) == ["slides", "slides"]
  {
    assert !IsLayoutClass("slides");
    FilterKeepsAll(["slides", "slides"], IsKeptContainerClass);
  }

  /** The synchroniser's view of a container list, one class at a time. */
  lemma KeptClassesCons(c: string, rest: seq<string>)
    ensures KeptClasses([c] + rest) == (if IsLayoutClass(c) then [] else [c]) + KeptClasses(rest)
  {
    assert ([c] + rest)[0] == c && ([c] + rest)[1..] == rest;
  }

  /** The synchroniser's view of a slide's class list, one class at a time. */
  lemma DerivedLayoutClassesCons(c: string, rest: seq<string>)
    ensures DerivedLayoutClasses([c] + rest)
         == (if IsSlideClass(c) then [ToLayoutClass(c)] else []) + DerivedLayoutClasses(rest)
  {
    assert ([c] + rest)[0] == c && ([c] + rest)[1..] == rest;
    var slides := Filter(rest, IsSlideClass);
    if IsSlideClass(c) {
      assert ([c] + slides)[0] == c && ([c] + slides)[1..] == slides;
    }
  }

  /** The container classes kept from a two-class container list. */
  lemma KeptClassesPair(x: string, y: string)
    ensures KeptClasses([x, y])
         == (if IsLayoutClass(x) then [] else [x]) + (if IsLayoutClass(y) then [] else [y])
  {
    assert [x, y] == [x] + ([y] + []);
    KeptClassesCons(x, [y]);
    KeptClassesCons(y, []);
  }

  /** The layout classes derived from a two-class slide list. */
  lemma DerivedLayoutClassesPair(a: string, b: string)
    ensures DerivedLayoutClasses([a, b])
         == (if IsSlideClass(a) then [ToLayoutClass(a)] else [])
          + (if IsSlideClass(b) then [ToLayoutClass(b)] else [])
  {
    assert [a, b] == [a] + ([b] + []);
    DerivedLayoutClassesCons(a, [b]);
    DerivedLayoutClassesCons(b, []);
  }

  /** A slide `slide--A slide--B` following a slide that set a layout class: the old
      layout class is dropped and `layout--A layout--B` appended, so the container
      `slides layout--title` becomes `slides layout--title layout--dark` on a
      `slide--title slide--dark` slide. */
  lemma SyncReplacesLayoutClasses(other: string, stale: string, a: string, b: string)
    requires !IsLayoutClass(other) && IsLayoutClass(stale)
    requires IsSlideClass(a) && IsSlideClass(b)
    ensures Sync([other, stale], [a, b])
         == [other, LayoutPrefix + a[|SlidePrefix|..], LayoutPrefix + b[|SlidePrefix|..]]
  {
    KeptClassesPair(other, stale);
    DerivedLayoutClassesPair(a, b);
  }

  /** A slide without layout classes clears the container's layout classes:
      `slides layout--dark` becomes `slides`. */
  lemma SyncClearsLayoutClasses(other: string, a: string)
    requires !IsLayoutClass(other)
    ensures Sync([other, LayoutPrefix + a], []) == [other]
  {
    assert IsLayoutClass(LayoutPrefix + a);
    assert [other, LayoutPrefix + a] == [other] + ([LayoutPrefix + a] + []);
    KeptClassesCons(other, [LayoutPrefix + a]);
    KeptClassesCons(LayoutPrefix + a, []);
  }

  /** A `slide--A` slide adds `layout--A` after the container's own classes:
      `slides` becomes `slides layout--wide` on a `slide--wide` slide. */
  lemma SyncAddsLayoutClass(other: string, a: string)
    requires !IsLayoutClass(other)
    ensures Sync([other], [SlidePrefix + a]) == [other, LayoutPrefix + a]
  {
    assert IsSlideClass(SlidePrefix + a);
    assert [other] == [other] + [];
    KeptClassesCons(other, []);
    assert [SlidePrefix + a] == [SlidePrefix + a] + [];
    DerivedLayoutClassesCons(SlidePrefix + a, []);
    ToLayoutClassRenames(a);
  }

  /** The class attribute written back by a synchronisation: the container's attribute
      split on single spaces, synchronised, joined with single spaces. */
  function SyncAttribute(classAttr: string, slideClasses: seq<string>): string
  {
    Join(Sync(Split(classAttr), slideClasses))
  }

  /** Class lists read from a DOM element never hold a token with a space in it. */
  predicate SpaceFree(classes: seq<string>)
  {
    forall i :: 0 <= i < |classes| ==> ' ' !in classes[i]
  }

  /** Rewriting a space-free slide class gives a space-free layout class. */
  lemma DerivedSpaceFree(slideClasses: seq<string>)
    requires SpaceFree(slideClasses)
    ensures SpaceFree(DerivedLayoutClasses(slideClasses))
  {
    var slides := Filter(slideClasses, IsSlideClass);
    var derived := DerivedLayoutClasses(slideClasses);
    assert ' ' !in LayoutPrefix;
    forall i | 0 <= i < |derived| ensures ' ' !in derived[i] {
      var c := slides[i];
      FilterMember(slideClasses, IsSlideClass, c);
      assert ' ' !in c;
      assert ' ' !in c[|SlidePrefix|..];
      assert derived[i] == LayoutPrefix + c[|SlidePrefix|..];
    }
  }

  /** The kept container classes of a space-free list are space-free. */
  lemma KeptSpaceFree(containerClasses: seq<string>)
    requires SpaceFree(containerClasses)
    ensures SpaceFree(KeptClasses(containerClasses))
  {
    var kept := KeptClasses(containerClasses);
    forall i | 0 <= i < |kept| ensures ' ' !in kept[i] {
      FilterMember(containerClasses, IsKeptContainerClass, kept[i]);
    }
  }

  /** Concatenating space-free class lists gives a space-free list. */
  lemma SpaceFreeAppend(a: seq<string>, b: seq<string>)
    requires SpaceFree(a) && SpaceFree(b)
    ensures SpaceFree(a + b)
  {
    forall k | 0 <= k < |a + b| ensures ' ' !in (a + b)[k] {
      if k < |a| {
        assert (a + b)[k] == a[k];
      } else {
        assert (a + b)[k] == b[k - |a|];
      }
    }
  }

  /** When neither list holds a class with a space, neither does the result. */
  lemma SyncSpaceFree(containerClasses: seq<string>, slideClasses: seq<string>)
    requires SpaceFree(containerClasses) && SpaceFree(slideClasses)
    ensures SpaceFree(Sync(containerClasses, slideClasses))
  {
    KeptSpaceFree(containerClasses);
    DerivedSpaceFree(slideClasses);
    SpaceFreeAppend(KeptClasses(containerClasses), DerivedLayoutClasses(slideClasses));
  }

  /** Reading the written attribute back gives exactly the synchronised classes, unless
      the synchronisation left no class at all (the empty attribute reads back as `[""]`). */
  lemma SyncAttributeReadsBack(classAttr: string, slideClasses: seq<string>)
    requires SpaceFree(slideClasses)
    requires Sync(Split(classAttr), slideClasses) != []
    ensures Split(SyncAttribute(classAttr, slideClasses)) == Sync(Split(classAttr), slideClasses)
  {
    SyncSpaceFree(Split(classAttr), slideClasses);
    SplitJoin(Sync(Split(classAttr), slideClasses));
  }

  /** On the class attribute itself, synchronising twice with the same present slide
      writes the same attribute as synchronising once, the empty attribute included. */
  lemma SyncAttributeIdempotent(classAttr: string, slideClasses: seq<string>)
    requires SpaceFree(slideClasses)
    ensures SyncAttribute(SyncAttribute(classAttr, slideClasses), slideClasses)
         == SyncAttribute(classAttr, slideClasses)
  {
    var once := Sync(Split(classAttr), slideClasses);
    if once == [] {
      assert DerivedLayoutClasses(slideClasses) == [];
      assert SyncAttribute(classAttr, slideClasses) == "";
      assert Split("") == [""];
      assert !IsLayoutClass("");
      assert [""][1..] == [];
      assert Sync([""], slideClasses) == [""];
    } else {
      SyncAttributeReadsBack(classAttr, slideClasses);
      SyncIdempotent(Split(classAttr), slideClasses);
    }
  }

  /** The slide container, `Talk.$slides`, whose `class` attribute the synchroniser rewrites. */
  class Deck {
    var classAttr: string

    constructor (classAttr: string)
      ensures this.classAttr == classAttr
    {
      this.classAttr := classAttr;
    }

    /** `Talk.setGlobalStateClasses`, given the class list of the present slide. */
    method SetGlobalStateClasses(currentSlideClasses: seq<string>)
      modifies this
      ensures classAttr == SyncAttribute(old(classAttr), currentSlideClasses)
      ensures SpaceFree(currentSlideClasses) && Sync(Split(old(classAttr)), currentSlideClasses) != [] ==>
        Split(classAttr) == Sync(Split(old(classAttr)), currentSlideClasses)
    {
      var currentStateClasses := Split(classAttr);
      var newStateClasses := Sync(currentStateClasses, currentSlideClasses);
      classAttr := Join(newStateClasses);
      if SpaceFree(currentSlideClasses) && newStateClasses != [] {
        SyncAttributeReadsBack(old(classAttr), currentSlideClasses);
      }
    }
  }
}
