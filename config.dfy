/** The configuration a Formatter reads once at construction, taken here as a
    given immutable value: the country templates, the component table with
    its aliases, the state and county code tables, and the regular-expression
    engine that applies configured rewrite rules. */
module Configuration {
  import opened Templates

  /** A canonical component name with its aliases in declared order. */
  datatype ComponentDef = ComponentDef(name: string, aliases: seq<string>)

  /** One row of a code table: a code and the (already uppercased) names
      that it abbreviates. */
  datatype CodeEntry = CodeEntry(code: string, names: set<string>)

  /** Country code to the rows of that country, in iteration order. */
  type CodeTable = map<string, seq<CodeEntry>>

  /** String.replaceAll(regex, replacement) applied to the first argument;
      java.util.regex is not part of this model. */
  type RegexReplace = (string, string, string) -> string

  datatype Config = Config(
    templates: map<string, Template>,
    components: seq<ComponentDef>,
    stateCodes: CodeTable,
    countyCodes: CodeTable,
    replaceAll: RegexReplace)
  {
    /** A "default" template exists and every canonical name is declared
        once (the name-to-aliases table is a map in the source). */
    ghost predicate Valid() {
      "default" in templates
      && forall i, j :: 0 <= i < j < |components| ==> components[i].name != components[j].name
    }

    predicate IsCanonical(k: string) {
      exists i :: 0 <= i < |components| && components[i].name == k
    }

    predicate IsAlias(k: string) {
      exists i :: 0 <= i < |components| && k in components[i].aliases
    }

    /** A key the component table does not know. */
    predicate IsUnknown(k: string) {
      !IsCanonical(k) && !IsAlias(k)
    }
  }
}
