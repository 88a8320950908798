/** `getBadgeClass` of src/utils/badges.ts and the two places that build a
    badge's `className` from a record's type. */
module Badges {
  import opened Types

  /** The class of a type's badge. */
  function BadgeClass(t: QRType): (cls: string)
    ensures cls == "badge-url" <==> t == URL
    ensures cls == "badge-text" <==> t == Text
  {
    assert "badge-url"[6] != "badge-text"[6];
    match t
    case URL => "badge-url"
    case Text => "badge-text"
  }

  /** Distinct types get distinct badge classes. */
  lemma BadgeClassInjective(a: QRType, b: QRType)
    ensures BadgeClass(a) == BadgeClass(b) ==> a == b
  {
  }

  /** The `className` of the detail panel's badge (src/components/DetailPanel.tsx,
      lines 13 and 21), built from `getBadgeClass`. */
  function DetailBadgeAttr(t: QRType): string {
    "badge " + BadgeClass(t)
  }

  /** The `className` of a table row's badge, which repeats the comparison
      inline instead of calling `getBadgeClass`. */
  function TableBadgeAttr(t: QRType): string {
    "badge " + (if t == URL then "badge-url" else "badge-text")
  }

  /** The table and the detail panel give every record the same badge. */
  lemma TableAgreesWithDetail(t: QRType)
    ensures TableBadgeAttr(t) == DetailBadgeAttr(t)
  {
  }
}
