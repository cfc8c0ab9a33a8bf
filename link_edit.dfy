/** The shop-link editor of a to-buy item: edits the caller's list of links in place. */
module LinkEdit {
  import opened ToBuyDto
  import opened MutableLists

  class LinkEditAdapter {
    const links: MutableList<Link>

    constructor(links: MutableList<Link>)
      ensures this.links == links
    {
      this.links := links;
    }

    /** Appends a link at the end. */
    method AddLink(link: Link)
      modifies links
      ensures links.elems == old(links.elems) + [link]
    {
      links.Add(link);
    }

    /** Removes the link at `position` when that is an index; otherwise nothing happens. */
    method RemoveLink(position: int)
      modifies links
      ensures links.elems == RemoveInRange(old(links.elems), position)
    {
      if 0 <= position < |links.elems| {
        links.RemoveAt(position);
      }
    }

    /** The backing list itself, not a copy: the caller reads the edits through it. */
    method GetLinks() returns (r: MutableList<Link>)
      ensures r == links
    {
      r := links;
    }

    /** Replaces the link at `position` when that is an index; otherwise nothing happens. */
    method UpdateLinkAtPosition(position: int, updatedLink: Link)
      modifies links
      ensures links.elems == ReplaceInRange(old(links.elems), position, updatedLink)
    {
      if 0 <= position < |links.elems| {
        links.Set(position, updatedLink);
      }
    }
  }
}
