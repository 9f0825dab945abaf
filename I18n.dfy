/** The translation helpers of script.js: getText with its fall-back to the
    key, TaskManager.getUnit, and checkTranslationCompleteness, which
    compares the key lists of the English and the Chinese tables. A
    translation table is a map from key to text; the language switch that
    picks the table is left to the caller. */
module I18n {
  import opened Seqs

  /** getText: the table's text for the key, or the key itself when the
      table has no entry or an empty one (both are falsy in JavaScript). */
  function GetText(table: map<string, string>, key: string): (r: string)
    ensures key in table && table[key] != "" ==> r == table[key]
    ensures key !in table || table[key] == "" ==> r == key
    ensures r == "" ==> key == ""
  {
    if key in table && table[key] != "" then table[key] else key
  }

  /** TaskManager.getUnit: the translated unit word for the two measured
      dimensions, and no unit otherwise. */
  function GetUnit(table: map<string, string>, dimension: string): (r: string)
    ensures dimension == "count" ==> r == GetText(table, "times")
    ensures dimension == "time" ==> r == GetText(table, "minutes")
    ensures r != "" <==> dimension == "count" || dimension == "time"
  {
    if dimension == "count" then GetText(table, "times")
    else if dimension == "time" then GetText(table, "minutes")
    else ""
  }

  /** One finding of checkTranslationCompleteness: keys of one table that
      the other table lacks. The source turns each into a message listing
      the keys; the message text is not modelled. */
  datatype Issue = MissingInChinese(keys: seq<string>) | MissingInEnglish(keys: seq<string>)

  /** The keys of `a`, in order, that `b` does not have. */
  function MissingFrom(a: seq<string>, b: seq<string>): (r: seq<string>)
    ensures forall k :: k in r <==> k in a && k !in b
  {
    Filter(a, k => k !in b)
  }

  /** What an issue reports: its keys are exactly the keys of one table that
      the other lacks. */
  predicate Reports(iss: Issue, en: seq<string>, zh: seq<string>)
  {
    iss.keys != [] &&
    if iss.MissingInChinese? then iss.keys == MissingFrom(en, zh) else iss.keys == MissingFrom(zh, en)
  }

  /** checkTranslationCompleteness: the keys missing from the Chinese table,
      then those missing from the English one, each only when there is one. */
  function CheckTranslationCompleteness(en: seq<string>, zh: seq<string>): (issues: seq<Issue>)
    ensures issues == [] <==> forall k :: k in en <==> k in zh
    ensures |issues| <= 2
    ensures |issues| == 2 ==> issues[0].MissingInChinese? && issues[1].MissingInEnglish?
    ensures forall iss :: iss in issues ==> Reports(iss, en, zh)
    ensures forall k :: k in en && k !in zh ==>
              exists iss :: iss in issues && iss.MissingInChinese? && k in iss.keys
    ensures forall k :: k in zh && k !in en ==>
              exists iss :: iss in issues && iss.MissingInEnglish? && k in iss.keys
  {
    var toChinese := MissingFrom(en, zh);
    var toEnglish := MissingFrom(zh, en);
    var first := if toChinese != [] then [MissingInChinese(toChinese)] else [];
    var second := if toEnglish != [] then [MissingInEnglish(toEnglish)] else [];
    assert toChinese != [] ==> toChinese[0] in toChinese;
    assert toEnglish != [] ==> toEnglish[0] in toEnglish;
    first + second
  }

  /** A table pair passes the check exactly when neither table has a key the
      other lacks, whichever order the keys are listed in. */
  lemma CompletenessIgnoresOrder(en: seq<string>, zh: seq<string>, en': seq<string>, zh': seq<string>)
    requires forall k :: k in en <==> k in en'
    requires forall k :: k in zh <==> k in zh'
    ensures CheckTranslationCompleteness(en, zh) == [] <==> CheckTranslationCompleteness(en', zh') == []
  {
  }
}
