/**
  The parser's output (s-html-parser/src/element.rs): flat elements and the
  ordered sequence that holds them.
 */
module Elements {

  /**
    A tag with its identifier and attribute map, or a run of text. Equality is
    structural, and maps are compared as maps, so insertion order never matters.
   */
  datatype Element =
    | Tag(ident: string, attrs: map<string, string>)
    | Text(text: string)

  /** `Element::tag`. */
  function NewTag(ident: string, attrs: map<string, string>): (e: Element)
    ensures e.Tag? && e.ident == ident && e.attrs == attrs
  {
    Tag(ident, attrs)
  }

  /**
    `Element::text`, and the three `From` conversions (from `&str`, `Cow` and
    `String`), which are one and the same once strings are values.
   */
  function NewText(text: string): (e: Element)
    ensures e.Text? && e.text == text
  {
    Text(text)
  }

  /** Two tags are equal exactly when their identifiers and their attribute maps are. */
  lemma TagEquality(a: Element, b: Element)
    requires a.Tag? && b.Tag?
    ensures a == b <==> a.ident == b.ident && a.attrs == b.attrs
  {
  }

  /** Filling an attribute map in a different order gives the same tag. */
  lemma AttributeOrderIrrelevant(ident: string, k1: string, v1: string, k2: string, v2: string)
    requires k1 != k2
    ensures NewTag(ident, map[k1 := v1][k2 := v2]) == NewTag(ident, map[k2 := v2][k1 := v1])
  {
  }

  /** `UnstructuredSequence`: a wrapper around an ordered vector of elements. */
  datatype UnstructuredSequence = UnstructuredSequence(elements: seq<Element>)

  /** `UnstructuredSequence::default()`. */
  function Default(): (s: UnstructuredSequence)
    ensures |s.elements| == 0
  {
    UnstructuredSequence([])
  }

  /** `From<Vec<Element>>`: wraps the vector unchanged. */
  function FromVec(v: seq<Element>): (s: UnstructuredSequence)
    ensures |s.elements| == |v| && forall k :: 0 <= k < |v| ==> s.elements[k] == v[k]
  {
    UnstructuredSequence(v)
  }

  /** `Deref`: the wrapped vector. */
  function Deref(s: UnstructuredSequence): (v: seq<Element>)
    ensures |v| == |s.elements| && forall k :: 0 <= k < |v| ==> v[k] == s.elements[k]
  {
    s.elements
  }

  /** `DerefMut` followed by `Vec::push`: the element goes at the end and nothing else changes. */
  function Push(s: UnstructuredSequence, e: Element): (r: UnstructuredSequence)
    ensures |r.elements| == |s.elements| + 1 && r.elements[|s.elements|] == e
    ensures r.elements[..|s.elements|] == s.elements
  {
    UnstructuredSequence(s.elements + [e])
  }

  /** Wrapping a vector and looking through the wrapper are inverse to each other. */
  lemma DerefFromVec(v: seq<Element>, s: UnstructuredSequence)
    ensures Deref(FromVec(v)) == v
    ensures FromVec(Deref(s)) == s
  {
  }
}
