/** The sidebar's main menu: which item is highlighted for the current
    page. */
module Navigation {
  import opened Strings

  /** `isActive`: the url starts with the item's link, or both are the root,
      or the link is not the root and occurs anywhere in the url. */
  predicate IsActive(url: string, href: string) {
    || StartsWith(url, href)
    || (href == "/" && url == "/")
    || (href != "/" && Contains(url, href))
  }

  /** For any link but the root, the item is highlighted exactly when the
      link occurs somewhere in the url. */
  lemma ActiveIffContains(url: string, href: string)
    requires href != "/"
    ensures IsActive(url, href) <==> Contains(url, href)
  {
    if StartsWith(url, href) {
      StartsWithContains(url, href);
    }
  }

  /** The root link is highlighted exactly for the urls that begin with
      "/". */
  lemma RootActiveIffAbsolute(url: string)
    ensures IsActive(url, "/") <==> StartsWith(url, "/")
  {
  }

  /** An item whose link occurs nowhere in the url is never highlighted. */
  lemma AbsentLinkInactive(url: string, href: string)
    requires !Contains(url, href)
    ensures !IsActive(url, href)
  {
    if StartsWith(url, href) {
      StartsWithContains(url, href);
    }
  }

  /** The containment test also highlights an item whose link occurs later
      in the url: "/events" is highlighted on "/beneficiaries/events". */
  lemma InfixHighlights()
    ensures IsActive("/beneficiaries/events", "/events")
    ensures !StartsWith("/beneficiaries/events", "/events")
  {
    assert OccursAt("/beneficiaries/events", "/events", 14);
    assert "/beneficiaries/events"[..7][1] != "/events"[1];
  }
}
