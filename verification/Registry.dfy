/** Code pages: the per-page correspondence between one-byte tag identities and tag names. */
module Registry {
  import opened Basics

  const MIN_ID := 0x05
  const MAX_ID := 0x3F

  datatype Codepage = Codepage(number: byte, name: string, tags: map<byte, string>)

  /** The two lookup tables of a registry, as a value. */
  datatype Pages = Pages(pages: map<byte, Codepage>, rev: map<byte, map<string, byte>>) {

    function TagName(page: byte, id: byte): Option<string> {
      if page in pages && id in pages[page].tags then Some(pages[page].tags[id]) else None
    }

    function TagID(page: byte, name: string): Option<byte> {
      if page in rev && name in rev[page] then Some(rev[page][name]) else None
    }

    /** What every sequence of `Add` calls keeps. */
    ghost predicate WellFormed() {
      && pages.Keys == rev.Keys
      && forall page | page in pages :: IsInverse(pages[page].tags, rev[page])
    }

    /** The bijection the codec needs, and the range that keeps tag bytes apart from control tokens. */
    lemma LookupsAgree(page: byte, id: byte, name: string)
      requires WellFormed()
      ensures TagID(page, name) == Some(id) <==> TagName(page, id) == Some(name)
      ensures TagName(page, id) == Some(name) ==> 0x05 <= id <= 0x3F
    {
      if page in pages {
        assert IsInverse(pages[page].tags, rev[page]);
      }
    }
  }

  predicate InRange(tags: map<byte, string>) {
    forall id | id in tags :: MIN_ID <= id <= MAX_ID
  }

  predicate Injective(tags: map<byte, string>) {
    forall a, b | a in tags && b in tags && tags[a] == tags[b] :: a == b
  }

  /** `ids` is the reverse of `tags`, whose identities all lie in range. */
  ghost predicate IsInverse(tags: map<byte, string>, ids: map<string, byte>) {
    && InRange(tags)
    && (forall id | id in tags :: tags[id] in ids && ids[tags[id]] == id)
    && (forall name | name in ids :: ids[name] in tags && tags[ids[name]] == name)
  }

  datatype AddError = AlreadyRegistered | OutOfRange(id: byte) | DuplicateName(name: string)

  class Registry {
    var pages: map<byte, Codepage>
    var rev: map<byte, map<string, byte>>

    constructor ()
      ensures View() == Pages(map[], map[])
    {
      pages, rev := map[], map[];
    }

    function View(): Pages
      reads this
    {
      Pages(pages, rev)
    }

    /** Registers a page. The source panics where this returns an error; either way nothing has been stored.
        The loop takes the tags in any order, as iteration over a Go map does, and the outcome does not depend on it. */
    method Add(p: Codepage) returns (error: Option<AddError>)
      requires View().WellFormed()
      modifies this
      ensures View().WellFormed()
      ensures error.None? <==> p.number !in old(pages) && (forall id | id in p.tags :: 0x05 <= id <= 0x3F) && Injective(p.tags)
      ensures error.None? ==> pages == old(pages)[p.number := p] && forall n | n != p.number :: n in rev <==> n in old(rev)
      ensures error.None? ==> forall n | n in old(rev) :: rev[n] == old(rev)[n]
      ensures error.Some? ==> View() == old(View())
    {
      if p.number in pages {
        return Some(AlreadyRegistered);
      }
      var ids: map<string, byte> := map[];
      var left := p.tags.Keys;
      while left != {}
        invariant left <= p.tags.Keys && View() == old(View())
        invariant forall id | id in p.tags && id !in left :: MIN_ID <= id <= MAX_ID && p.tags[id] in ids && ids[p.tags[id]] == id
        invariant forall name | name in ids :: ids[name] in p.tags && ids[name] !in left && p.tags[ids[name]] == name
        decreases left
      {
        var id :| id in left;
        if id < MIN_ID || id > MAX_ID {
          assert !InRange(p.tags);
          return Some(OutOfRange(id));
        }
        var name := p.tags[id];
        if name in ids {
          assert ids[name] != id && p.tags[ids[name]] == p.tags[id];
          return Some(DuplicateName(name));
        }
        ids := ids[name := id];
        left := left - {id};
      }
      pages := pages[p.number := p];
      rev := rev[p.number := ids];
      assert IsInverse(p.tags, ids);
      return None;
    }
  }
}
