/** How catalog documents become links of the graph. */
module LinkReading {
  import opened Wrappers
  import opened Text
  import opened TextLaws
  import opened ApiCatalog

  /** The document has the link: in its linkset, or, where that is empty, among its links. */
  predicate Has(document: Document, link: Link) {
    if document.linkset != [] then link in document.linkset else link in document.links
  }

  /** `name` is a word of the relation. */
  ghost predicate Relates(rel: string, name: string) {
    exists words: seq<string> :: AreWords(rel, words) && name in words
  }

  lemma RelatesIff(rel: string, name: string)
    ensures Relates(rel, name) <==> name in Fields(rel)
  {
    hide Fields, AreWords;
    FieldsIff(rel, Fields(rel));
    if Relates(rel, name) {
      var words: seq<string> :| AreWords(rel, words) && name in words;
      FieldsIff(rel, words);
    }
  }

  /** Catalog links, item links and broken catalogs of the graph, by what the documents say: a link whose relation has
      the word `item` is an item, any other with the word `api-catalog` leads to a catalog. */
  lemma GraphIsRead(web: Web, u: Url, v: Url)
    ensures web.Edge(u, v) <==>
      u in web.pages && exists link: Link ::
        && Has(web.pages[u], link) && web.resolve(u, link.href) == Some(v)
        && Relates(link.rel, "api-catalog") && !Relates(link.rel, "item")
    ensures web.Item(u, v) <==>
      u in web.pages && exists link: Link ::
        Has(web.pages[u], link) && web.resolve(u, link.href) == Some(v) && Relates(link.rel, "item")
    ensures web.Broken(u) <==>
      u !in web.pages || exists link: Link :: Has(web.pages[u], link) && web.resolve(u, link.href) == None
  {
    hide Relates, Fields;
    forall link: Link
      ensures web.IsItem(link) <==> Relates(link.rel, "item")
      ensures web.IsCatalog(link) <==> Relates(link.rel, "api-catalog") && !Relates(link.rel, "item")
    {
      RelatesIff(link.rel, "item");
      RelatesIff(link.rel, "api-catalog");
    }
    if u in web.pages {
      forall link: Link
        ensures Has(web.pages[u], link) <==> link in web.Links(u)
      {
      }
    }
  }
}
