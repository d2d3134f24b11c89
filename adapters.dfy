/** The host-keyed dispatch tables of the `adapters` package (`SANITIZERS`,
    `TITLE_PARSERS`) and the two lookups over them, `get_sanitizer` and
    `get_titleparser`. A table key is the article's hostname with every `.` replaced
    by `_`; an unknown host falls back to the `inosmi_ru` entry. */
module Adapters {
  import opened PyStr

  /** What a site adapter (a sanitizer or a title parser) makes of a page: its text,
      or the `ArticleNotFound` exception when the expected markup is missing. */
  datatype Parsed = Parsed(text: string) | ArticleNotFound

  /** A site adapter: `inosmi_ru.sanitize`, `inosmi_ru.get_title`, or `lambda x: x`. */
  type Adapter = string -> Parsed

  const InosmiKey: string := "inosmi_ru"
  const DvmnKey: string := "dvmn_org"

  /** `lambda x: x`, the sanitizer `get_sanitizer` installs for `dvmn_org`. */
  const Identity: Adapter := (html: string) => Parsed(html)

  /** `hostname.replace('.', '_')` */
  function HostKey(hostname: string): (key: string)
    ensures |key| == |hostname|
    ensures '.' !in key
    ensures forall i :: 0 <= i < |hostname| ==> key[i] == (if hostname[i] == '.' then '_' else hostname[i])
  {
    Replace(hostname, '.', '_')
  }

  /** `table.get(HostKey(hostname), table['inosmi_ru'])` */
  function Lookup(table: map<string, Adapter>, hostname: string): (adapter: Adapter)
    requires InosmiKey in table
    ensures HostKey(hostname) in table ==> adapter == table[HostKey(hostname)]
    ensures HostKey(hostname) !in table ==> adapter == table[InosmiKey]
  {
    var key := HostKey(hostname);
    if key in table then table[key] else table[InosmiKey]
  }

  /** What the assignment `SANITIZERS['dvmn_org'] = lambda x: x` leaves in the table. */
  function RegisterDvmn(table: map<string, Adapter>): (table': map<string, Adapter>)
    ensures table'.Keys == table.Keys + {DvmnKey}
    ensures table'[DvmnKey] == Identity
    ensures forall key :: key in table && key != DvmnKey ==> table'[key] == table[key]
  {
    table[DvmnKey := Identity]
  }

  /** The two module-level tables of the `adapters` package. Both start with the
      single `inosmi_ru` entry; only `get_sanitizer` ever writes to them. */
  class Registry {
    var sanitizers: map<string, Adapter>
    var titleParsers: map<string, Adapter>

    /** Both lookups read the `inosmi_ru` entry, so it must be present. */
    ghost predicate Valid()
      reads this
    {
      InosmiKey in sanitizers && InosmiKey in titleParsers
    }

    /** The tables as `adapters/__init__.py` builds them. */
    constructor (inosmiSanitize: Adapter, inosmiGetTitle: Adapter)
      ensures Valid()
      ensures sanitizers == map[InosmiKey := inosmiSanitize]
      ensures titleParsers == map[InosmiKey := inosmiGetTitle]
    {
      var initialSanitizers: map<string, Adapter> := map[InosmiKey := inosmiSanitize];
      var initialTitleParsers: map<string, Adapter> := map[InosmiKey := inosmiGetTitle];
      sanitizers := initialSanitizers;
      titleParsers := initialTitleParsers;
    }

    /** `get_sanitizer(url)` given the URL's hostname: installs the `dvmn_org`
        identity on every call, then looks the host up. */
    method GetSanitizer(hostname: string) returns (sanitize: Adapter)
      requires Valid()
      modifies this`sanitizers
      ensures Valid()
      ensures sanitizers == RegisterDvmn(old(sanitizers))
      ensures sanitize == Lookup(RegisterDvmn(old(sanitizers)), hostname)
    {
      var host := HostKey(hostname);
      var default := sanitizers[InosmiKey];
      sanitizers := sanitizers[DvmnKey := Identity];
      sanitize := if host in sanitizers then sanitizers[host] else default;
    }

    /** `get_titleparser(url)` given the URL's hostname: the same lookup over
        `TITLE_PARSERS`, which it leaves untouched. */
    function TitleParserFor(hostname: string): (parse: Adapter)
      reads this
      requires Valid()
      ensures HostKey(hostname) in titleParsers ==> parse == titleParsers[HostKey(hostname)]
      ensures HostKey(hostname) !in titleParsers ==> parse == titleParsers[InosmiKey]
    {
      Lookup(titleParsers, hostname)
    }
  }

  /** Installing the `dvmn_org` entry twice leaves the table as installing it once:
      every call of `get_sanitizer` after the first leaves `SANITIZERS` unchanged. */
  lemma RegisterDvmnIdempotent(table: map<string, Adapter>)
    ensures RegisterDvmn(RegisterDvmn(table)) == RegisterDvmn(table)
  {
  }

  /** After `get_sanitizer` has run, the sanitizer of `dvmn.org` is the identity,
      whatever the table held before. */
  lemma DvmnSanitizerIsIdentity(table: map<string, Adapter>, html: string)
    requires InosmiKey in table
    ensures Lookup(RegisterDvmn(table), "dvmn.org")(html) == Parsed(html)
  {
    assert HostKey("dvmn.org") == DvmnKey;
  }

  /** The hosts `inosmi.ru` and the default share one entry: `inosmi.ru` is looked up
      under the key `inosmi_ru`. */
  lemma InosmiHostKey()
    ensures HostKey("inosmi.ru") == InosmiKey
  {
  }

  /** A host without a table entry is served like `inosmi.ru`: both get the table's
      `inosmi_ru` adapter. */
  lemma UnknownHostFallsBack(table: map<string, Adapter>, hostname: string)
    requires InosmiKey in table && HostKey(hostname) !in table
    ensures Lookup(table, hostname) == Lookup(table, "inosmi.ru")
  {
    InosmiHostKey();
  }

  /** The key scheme cannot tell a `.` from a `_`: two hostnames that differ only
      there share one table entry. */
  lemma HostKeyIgnoresDots(h1: string, h2: string)
    requires |h1| == |h2|
    requires forall i :: 0 <= i < |h1| ==> h1[i] == h2[i] || (h1[i] in "._" && h2[i] in "._")
    ensures HostKey(h1) == HostKey(h2)
  {
  }
}
