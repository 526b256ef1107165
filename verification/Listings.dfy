/**
 Listings of files: every path text with the size and the digest of its content.
 */
module Listings {
  import opened FileTree
  import opened PathText

  type Entries = map<string, (nat, string)>

  /** The files by path text, each with its size and digest. */
  function EntriesOf(files: map<Path, string>, hash: string -> string): Entries {
    map k | k in (set p | p in files :: Text(p)) && Split(k, '/') in files ::
      (|files[Split(k, '/')]|, hash(files[Split(k, '/')]))
  }

  lemma EntriesHas(files: map<Path, string>, hash: string -> string, p: Path)
    requires (forall q :: q in files ==> GoodPath(q)) && GoodPath(p)
    ensures Text(p) in EntriesOf(files, hash) <==> p in files
    ensures p in files ==> EntriesOf(files, hash)[Text(p)] == (|files[p]|, hash(files[p]))
  {
    TextIsUnique(p);
  }

  /** The keys of the entries are the texts of the paths. */
  lemma EntryKeys(files: map<Path, string>, hash: string -> string, k: string)
    requires forall q :: q in files ==> GoodPath(q)
    ensures k in EntriesOf(files, hash) <==> exists q :: q in files && Text(q) == k
  {
    hide Text, Split;
    if q :| q in files && Text(q) == k {
      TextIsUnique(q);
    }
  }

  lemma EntriesAdd(files: map<Path, string>, hash: string -> string, p: Path, c: string)
    requires (forall q :: q in files ==> GoodPath(q)) && GoodPath(p)
    ensures EntriesOf(files[p := c], hash) == EntriesOf(files, hash)[Text(p) := (|c|, hash(c))]
  {
    hide Text, Split, EntriesOf;
    var more, before := EntriesOf(files[p := c], hash), EntriesOf(files, hash);
    EntriesHas(files[p := c], hash, p);
    forall k
      ensures k in more <==> k in before || k == Text(p)
      ensures k in more && k != Text(p) ==> k in before && more[k] == before[k]
    {
      EntryKeys(files, hash, k);
      EntryKeys(files[p := c], hash, k);
      if q :| q in files[p := c] && Text(q) == k {
        EntriesHas(files, hash, q);
        EntriesHas(files[p := c], hash, q);
      }
    }
  }

  /** No two different contents of these files share a digest. */
  ghost predicate NoCollision(f: map<Path, string>, g: map<Path, string>, hash: string -> string) {
    forall p, q :: p in f && q in g && hash(f[p]) == hash(g[q]) ==> f[p] == g[q]
  }

  /** Without digest collisions, equal listings mean equal files: nothing added, removed or changed. */
  lemma EntriesDetermineFiles(f: map<Path, string>, g: map<Path, string>, hash: string -> string)
    requires NoCollision(f, g, hash) && (forall p :: p in f ==> GoodPath(p)) && (forall p :: p in g ==> GoodPath(p))
    requires EntriesOf(f, hash) == EntriesOf(g, hash)
    ensures f == g
  {
    hide EntriesOf;
    forall p ensures p in f <==> p in g {
      if p in f || p in g {
        EntriesHas(f, hash, p);
        EntriesHas(g, hash, p);
      }
    }
    forall p | p in f ensures f[p] == g[p] {
      EntriesHas(f, hash, p);
      EntriesHas(g, hash, p);
    }
  }
}
