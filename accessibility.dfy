/** The accessibility of a NeTEx IDF object, read from its `AccessibilityAssessment` element
  * (netexidf2ntfs/src/netexidf/accessibility.rs). */
module NetexAccessibility {
  import opened Wrappers
  import opened Availabilities

  /** An XML element as the reader sees it: its name, its text and its child elements. */
  datatype Element = Element(name: string, text: string, children: seq<Element>)

  /** The elements of `children` named `name`, in document order. */
  function Named(children: seq<Element>, name: string): (r: seq<Element>)
    ensures forall e :: e in r <==> e in children && e.name == name
    ensures |r| <= |children|
  {
    if children == [] then []
    else (if children[0].name == name then [children[0]] else []) + Named(children[1..], name)
  }

  /** `only_child`: the child named `name` when there is exactly one. */
  function OnlyChild(el: Element, name: string): (r: Option<Element>)
    ensures r.Some? <==> |Named(el.children, name)| == 1
    ensures r.Some? ==> r.value in el.children && r.value.name == name
  {
    var named := Named(el.children, name);
    if |named| == 1 then Some(named[0]) else None
  }

  /** The `availability` helper: the text "true" or "false", anything else unknown. */
  function AvailabilityOf(val: string): Availability
  {
    match val
    case "true" => Available
    case "false" => NotAvailable
    case _ => InformationNotAvailable
  }

  /** Each value has exactly the texts the helper maps to it, compared case-sensitively. */
  lemma AvailabilityOfSpec(val: string)
    ensures AvailabilityOf(val) == Available <==> val == "true"
    ensures AvailabilityOf(val) == NotAvailable <==> val == "false"
    ensures AvailabilityOf(val) == InformationNotAvailable <==> val != "true" && val != "false"
  {
  }

  datatype Accessibility = Accessibility(wheelchair: Availability, visual_announcement: Availability,
                                         audible_announcement: Availability)

  /** The limitation element, `limitations/AccessibilityLimitation`. */
  function Limitation(el: Element): Option<Element>
  {
    match OnlyChild(el, "limitations")
    case None => None
    case Some(l) => OnlyChild(l, "AccessibilityLimitation")
  }

  /** `accessibility`: the three availabilities, or nothing when one of the four elements
    * is missing. */
  function AccessibilityOf(el: Element): Option<Accessibility>
  {
    match (OnlyChild(el, "MobilityImpairedAccess"), Limitation(el))
    case (Some(access), Some(limitation)) =>
      (match (OnlyChild(limitation, "VisualSignsAvailable"), OnlyChild(limitation, "AudibleSignalsAvailable"))
       case (Some(visual), Some(audible)) =>
         Some(Accessibility(AvailabilityOf(access.text), AvailabilityOf(visual.text),
                            AvailabilityOf(audible.text)))
       case _ => None)
    case _ => None
  }

  /** There is a result exactly when the four elements are there, and then each field is read
    * from its own element by the same mapping. */
  lemma AccessibilitySpec(el: Element)
    ensures AccessibilityOf(el).Some? <==>
      OnlyChild(el, "MobilityImpairedAccess").Some? && Limitation(el).Some?
      && OnlyChild(Limitation(el).value, "VisualSignsAvailable").Some?
      && OnlyChild(Limitation(el).value, "AudibleSignalsAvailable").Some?
    ensures AccessibilityOf(el).Some? ==>
      AccessibilityOf(el).value.wheelchair == AvailabilityOf(OnlyChild(el, "MobilityImpairedAccess").value.text)
      && AccessibilityOf(el).value.visual_announcement
         == AvailabilityOf(OnlyChild(Limitation(el).value, "VisualSignsAvailable").value.text)
      && AccessibilityOf(el).value.audible_announcement
         == AvailabilityOf(OnlyChild(Limitation(el).value, "AudibleSignalsAvailable").value.text)
  {
  }

  /** An element whose single mobility child says "true" and whose limitation says "false" for
    * the visual signs and "unknown" for the audible ones. */
  lemma AccessibilityExample()
    ensures AccessibilityOf(Element("AccessibilityAssessment", "", [
      Element("MobilityImpairedAccess", "true", []),
      Element("limitations", "", [Element("AccessibilityLimitation", "", [
        Element("VisualSignsAvailable", "false", []),
        Element("AudibleSignalsAvailable", "unknown", [])])])]))
      == Some(Accessibility(Available, NotAvailable, InformationNotAvailable))
  {
    var v := Element("VisualSignsAvailable", "false", []);
    var a := Element("AudibleSignalsAvailable", "unknown", []);
    var al := Element("AccessibilityLimitation", "", [v, a]);
    var l := Element("limitations", "", [al]);
    var m := Element("MobilityImpairedAccess", "true", []);
    var el := Element("AccessibilityAssessment", "", [m, l]);
    assert Named(el.children, "MobilityImpairedAccess") == [m];
    assert Named(el.children, "limitations") == [l];
    assert Named(l.children, "AccessibilityLimitation") == [al];
    assert Named(al.children, "VisualSignsAvailable") == [v];
    assert Named(al.children, "AudibleSignalsAvailable") == [a];
  }

  /** A missing mobility element gives nothing, whatever the rest. */
  lemma AccessibilityMissing(el: Element)
    requires forall i :: 0 <= i < |el.children| ==> el.children[i].name != "MobilityImpairedAccess"
    ensures AccessibilityOf(el) == None
  {
    if |Named(el.children, "MobilityImpairedAccess")| == 1 {
      var e := Named(el.children, "MobilityImpairedAccess")[0];
      assert e in el.children;
    }
  }
}
