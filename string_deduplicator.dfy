/**
 * The string interner: one copy of every string, filed under its hash. The
 * source keeps a single lazily created instance; here it is one object that
 * every user is handed.
 */
module Deduplication {
  import opened QtText

  class StringDeduplicator {
    /** qHash on strings. Nothing is assumed about it: distinct strings may collide. */
    const hash: string -> Uint32
    /** m_Strings: the stored strings by hash. */
    var strings: map<Uint32, string>

    constructor(hash: string -> Uint32)
      ensures this.hash == hash && strings == map[]
    {
      this.hash := hash;
      strings := map[];
    }

    /** Retrieve: the string stored under id, or the empty string when there is none. */
    function Retrieve(id: Uint32): (r: string)
      reads this
      ensures id in strings ==> r == strings[id]
      ensures id !in strings ==> r == []
    {
      if id in strings then strings[id] else []
    }

    /** Total: the number of distinct hashes stored. */
    function Total(): (n: nat)
      reads this
      ensures n == |strings.Keys|
    {
      |strings|
    }

    /** Find: the hash of str when something is stored under that hash, otherwise 0. The table is only read. */
    method Find(str: string) returns (r: Uint32)
      ensures hash(str) in strings ==> r == hash(str)
      ensures hash(str) !in strings ==> r == 0
    {
      r := 0;
      var strHash := hash(str);
      if strHash in strings {
        r := strHash;
      }
    }

    /**
     * Store: files str under its hash, replacing whatever was there (the
     * string of a colliding hash included), and returns that hash.
     */
    method Store(str: string) returns (id: Uint32)
      modifies this
      ensures id == hash(str)
      ensures strings == old(strings)[id := str]
      ensures Retrieve(id) == str
      ensures forall h :: h != id ==> Retrieve(h) == old(Retrieve(h))
      ensures Total() == if id in old(strings) then old(Total()) else old(Total()) + 1
      ensures id in old(strings) && old(strings)[id] == str ==> strings == old(strings)
    {
      id := hash(str);
      strings := strings[id := str];
    }
  }
}
