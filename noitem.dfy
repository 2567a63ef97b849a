/**
 * The item ban list: the names of banned materials, stored upper-cased so that lookups ignore
 * case.
 */
module Noitem {
  import opened Text

  /** A material: its name and whether it can be held as an item. */
  datatype Material = Material(name: string, isItem: bool)

  class NoitemManager {
    var banned: set<string>

    constructor ()
      ensures banned == {}
    {
      banned := {};
    }

    /** Whether the material's name is on the list, ignoring case. */
    function IsBanned(m: Material): (r: bool)
      reads this
      ensures r <==> Upper(m.name) in banned
    {
      Upper(m.name) in banned
    }

    /**
     * Bans a material: one that is not an item is refused and nothing changes; otherwise its
     * upper-cased name is stored and the answer is whether it was new.
     */
    method Ban(m: Material) returns (r: bool)
      modifies this
      ensures !m.isItem ==> !r && banned == old(banned)
      ensures m.isItem ==> (r <==> !old(IsBanned(m))) && banned == old(banned) + {Upper(m.name)}
      ensures m.isItem ==> IsBanned(m)
    {
      if !m.isItem {
        return false;
      }
      r := Upper(m.name) !in banned;
      banned := banned + {Upper(m.name)};
    }

    /** Unbans a material; the answer is whether its upper-cased name was on the list. */
    method Unban(m: Material) returns (r: bool)
      modifies this
      ensures r <==> old(IsBanned(m))
      ensures banned == old(banned) - {Upper(m.name)}
      ensures !IsBanned(m)
    {
      r := Upper(m.name) in banned;
      banned := banned - {Upper(m.name)};
    }

    /** Materials whose names differ only in case are banned or not together. */
    lemma IsBannedIgnoresCase(m: Material, n: Material)
      requires EqualsIgnoreCase(m.name, n.name)
      ensures IsBanned(m) <==> IsBanned(n)
    {
      EqualsIgnoreCaseIffSameUpper(m.name, n.name);
    }
  }
}
