/**
  The carriers offered by the "MNC" menu and the mobile network code sent for
  each (project_GSM.py:152-155).  The menu's radio buttons only ever store a
  name from `Menu`, so the lookup `code_mnc[selected]` never raises.
 */
module Operators {

  /** `self.mnc`: the menu entries, in menu order. */
  const Menu: seq<string> := ["IR-MCI", "TKC", "MTCE", "Taliya", "Irancell", "TCI", "Iraphone"]

  /** The value `self.selected` holds until the user picks another entry. */
  const DefaultOperator: string := "IR-MCI"

  /** `self.code_mnc`: carrier name to mobile network code. */
  const CodeMnc: map<string, nat> :=
    map["IR-MCI" := 11, "TKC" := 14, "MTCE" := 19, "Taliya" := 32,
        "Irancell" := 35, "TCI" := 70, "Iraphone" := 93]

  /** `self.code_mnc[name]` for a name the menu offers; the table has an entry for it. */
  function Code(name: string): (code: nat)
    requires name in Menu
    ensures name in CodeMnc && code == CodeMnc[name]
  {
    CodeMnc[name]
  }

  /** The menu and the table name exactly the same carriers. */
  lemma MenuMatchesTable()
    ensures forall name :: name in Menu <==> name in CodeMnc
    ensures |Menu| == |CodeMnc|
  {
    assert CodeMnc.Keys == {"IR-MCI", "TKC", "MTCE", "Taliya", "Irancell", "TCI", "Iraphone"};
    // the carriers are distinct: count them one at a time
    assert |{"IR-MCI", "TKC", "MTCE"}| == 3;
    assert |{"IR-MCI", "TKC", "MTCE", "Taliya"}| == 4;
    assert |{"IR-MCI", "TKC", "MTCE", "Taliya", "Irancell"}| == 5;
    assert |{"IR-MCI", "TKC", "MTCE", "Taliya", "Irancell", "TCI"}| == 6;
  }

  /** The initial selection is in the menu and sends network code 11. */
  lemma DefaultSelection()
    ensures DefaultOperator in Menu
    ensures Code(DefaultOperator) == 11
  {
  }

  /** No two carriers share a network code, so the code in a URL names one carrier. */
  lemma CodesDistinct()
    ensures forall a, b :: a in CodeMnc && b in CodeMnc && a != b ==> CodeMnc[a] != CodeMnc[b]
  {
  }
}
