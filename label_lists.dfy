/**
  Joins of the long label lists both validators' tests use. Each list is
  written as two runs so that no single fact joins all of its pieces.
 */
module LabelLists {
  import opened Text

  lemma FirstFiveJoin() ensures Join(["a", "b", "c", "d", "e"], '.') == "a.b.c.d.e" {}

  lemma ElevenLevelsBackJoin() ensures Join(["f", "g", "h", "i", "j", "com"], '.') == "f.g.h.i.j.com" {}

  lemma ElevenLevelsText() ensures "a.b.c.d.e" + "." + "f.g.h.i.j.com" == "a.b.c.d.e.f.g.h.i.j.com" {}

  lemma ElevenLevelsJoin() ensures Join(["a", "b", "c", "d", "e"] + ["f", "g", "h", "i", "j", "com"], '.') == "a.b.c.d.e.f.g.h.i.j.com" {
    FirstFiveJoin();
    ElevenLevelsBackJoin();
    ElevenLevelsText();
    JoinConcat(["a", "b", "c", "d", "e"], ["f", "g", "h", "i", "j", "com"], '.');
  }
}
