/** `AionPlugin` of `aionbot-core`: a named builder that collects entries. */
module Plugins {
  import opened Entries

  class AionPlugin {
    var name: string
    var entries: seq<Entry>

    /** `AionPlugin::default`. */
    constructor Default()
      ensures name == "" && entries == []
    {
      name := "";
      entries := [];
    }

    /** `AionPlugin::new`. */
    constructor (name: string)
      ensures this.name == name && entries == []
    {
      this.name := name;
      entries := [];
    }

    /** `AionPlugin::name`. */
    function Name(): (r: string)
      reads this
      ensures r == name
    {
      name
    }

    /** `AionPlugin::entries`. */
    function Entries(): (r: seq<Entry>)
      reads this
      ensures r == entries
    {
      entries
    }

    /** `AionPlugin::invoke_handler`: appends the entries, in order, after the
        existing ones and hands the plugin back; the name is kept. */
    method InvokeHandler(es: seq<Entry>) returns (self: AionPlugin)
      modifies this
      ensures self == this
      ensures entries == old(entries) + es && name == old(name)
    {
      entries := entries + es;
      return this;
    }
  }
}
