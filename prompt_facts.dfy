/**
 * What the two rewrite chains of baby.py do to each phase description, and
 * the general laws behind them.
 */
module PromptFacts {
  import opened Wrappers
  import opened PyStr
  import opened Prompt

  /** Text in which every pattern of both chains misses a character is left alone by both. */
  lemma {:induction false} RewritesKeep(s: string, g: Gender, cc: char, ct: char, ca: char, cn: char)
    requires cc in "child" && cc !in s
    requires ct in "teenager" && ct !in s
    requires ca in "adult" && ca !in s
    requires cn in "newborn baby" && cn !in s
    ensures PhaseRewrite(s, g) == s
    ensures SingleRewrite(s, g) == s
  {
    var l := Lower(g);
    ReplaceAbsent(s, "newborn baby", "newborn baby " + l, cn);
    ReplaceAbsent(s, "child", l + " child", cc);
    ReplaceAbsent(s, "teenager", l + " teenager", ct);
    var boy := l == "menino";
    ReplaceAbsent(s, "child", if boy then "boy" else "girl", cc);
    ReplaceAbsent(s, "teenager", if boy then "male teenager" else "female teenager", ct);
    ReplaceAbsent(s, "adult", if boy then "man" else "woman", ca);
  }

  /** A comma splits the text into phrases that both chains rewrite independently. */
  lemma {:induction false} RewritesSeparate(a: string, b: string, g: Gender)
    ensures PhaseRewrite(a + "," + b, g) == PhaseRewrite(a, g) + "," + PhaseRewrite(b, g)
    ensures SingleRewrite(a + "," + b, g) == SingleRewrite(a, g) + "," + SingleRewrite(b, g)
  {
    var l := Lower(g);
    var boy := l == "menino";
    assert ',' !in "child" && ',' !in "teenager" && ',' !in "adult" && ',' !in "newborn baby";
    var w1, w2, w3 := if boy then "boy" else "girl",
                      if boy then "male teenager" else "female teenager",
                      if boy then "man" else "woman";
    ReplaceSeparated(a, ',', b, "child", w1);
    var a1, b1 := Replace(a, "child", w1), Replace(b, "child", w1);
    ReplaceSeparated(a1, ',', b1, "teenager", w2);
    var a2, b2 := Replace(a1, "teenager", w2), Replace(b1, "teenager", w2);
    ReplaceSeparated(a2, ',', b2, "adult", w3);
    var a3, b3 := Replace(a2, "adult", w3), Replace(b2, "adult", w3);
    ReplaceSeparated(a3, ',', b3, "newborn baby", "newborn baby " + l);

    ReplaceSeparated(a, ',', b, "newborn baby", "newborn baby " + l);
    var c1, d1 := Replace(a, "newborn baby", "newborn baby " + l), Replace(b, "newborn baby", "newborn baby " + l);
    ReplaceSeparated(c1, ',', d1, "child", l + " child");
    var c2, d2 := Replace(c1, "child", l + " child"), Replace(d1, "child", l + " child");
    ReplaceSeparated(c2, ',', d2, "teenager", l + " teenager");
  }

  /** A trailing ", ..." phrase in which every pattern misses a character passes through both chains. */
  lemma {:induction false} RewritesPhrase(a: string, q: string, g: Gender, cc: char, ct: char, ca: char, cn: char)
    requires |q| > 0 && q[0] == ','
    requires cc in "child" && cc !in q
    requires ct in "teenager" && ct !in q
    requires ca in "adult" && ca !in q
    requires cn in "newborn baby" && cn !in q
    ensures PhaseRewrite(a + q, g) == PhaseRewrite(a, g) + q
    ensures SingleRewrite(a + q, g) == SingleRewrite(a, g) + q
  {
    var r := q[1..];
    assert cc !in r && ct !in r && ca !in r && cn !in r;
    RewritesKeep(r, g, cc, ct, ca, cn);
    RewritesSeparate(a, r, g);
    assert q == "," + r;
    AppendAssoc(a, ",", r);
    AppendAssoc(PhaseRewrite(a, g), ",", r);
    AppendAssoc(SingleRewrite(a, g), ",", r);
  }

  /** The last word of a phrase, when it is the pattern and the words before it lack one of its letters, is replaced on its own. */
  lemma {:induction false} ReplaceLastWord(x: string, w: string, rep: string, c: char)
    requires ' ' !in w && c in w && c !in x
    ensures Replace(x + " " + w, w, rep) == x + " " + rep
  {
    ReplaceAbsent(x, w, rep, c);
    ReplaceSeparated(x, ' ', w, w, rep);
    ReplaceAtStart([], w, rep);
    assert w + [] == w;
  }

  /** The gendered nouns of the all-phases path. */
  function ChildWord(g: Gender): string
  {
    match g
    case Menino => "boy"
    case Menina => "girl"
  }

  function TeenWord(g: Gender): string
  {
    match g
    case Menino => "male teenager"
    case Menina => "female teenager"
  }

  function AdultWord(g: Gender): string
  {
    match g
    case Menino => "man"
    case Menina => "woman"
  }

  /** Letters the gender words lack, which keep them clear of the patterns that come after them. */
  lemma GenderWordsLack(g: Gender)
    ensures 'n' !in ChildWord(g) && 'd' !in ChildWord(g)
    ensures 'd' !in TeenWord(g) && 'w' !in TeenWord(g)
    ensures 'b' !in AdultWord(g)
    ensures 'h' !in Lower(g) && 'g' !in Lower(g) && 'w' !in Lower(g)
  {
    match g
    case Menino =>
    case Menina =>
  }

  lemma {:induction false} PhaseRewriteSteps(s: string, g: Gender)
    ensures PhaseRewrite(s, g)
            == Replace(Replace(Replace(Replace(s, "child", ChildWord(g)), "teenager", TeenWord(g)), "adult", AdultWord(g)),
                       "newborn baby", "newborn baby " + Lower(g))
  {
    assert Lower(Menina) != "menino" by {
      assert Lower(Menina)[5] != "menino"[5];
    }
  }

  /** A pattern at the end of the text, whose first letter the text before it lacks, is replaced there. */
  lemma {:induction false} ReplaceAtEnd(x: string, w: string, rep: string)
    requires w != [] && w[0] !in x
    ensures Replace(x + w, w, rep) == x + rep
  {
    ReplaceCleanPrefix(x, w, w, rep);
    ReplaceAtStart([], w, rep);
    assert w + [] == w && rep + [] == rep;
  }

  // The Bebê head "extreme close-up face portrait of a cute newborn baby".

  lemma {:induction false} BebeHeadNoChild(rep: string)
    ensures Replace("extreme close-up face portrait of a cute" + " " + "newborn baby", "child", rep)
            == "extreme close-up face portrait of a cute" + " " + "newborn baby"
  {
    ReplaceAbsent("extreme close-up face portrait of a cute" + " " + "newborn baby", "child", rep, 'h');
  }

  lemma {:induction false} BebeHeadNoTeen(rep: string)
    ensures Replace("extreme close-up face portrait of a cute" + " " + "newborn baby", "teenager", rep)
            == "extreme close-up face portrait of a cute" + " " + "newborn baby"
  {
    assert 'g' !in "extreme close-up face portrait of a cute" + " " + "newborn baby";
    ReplaceAbsent("extreme close-up face portrait of a cute" + " " + "newborn baby", "teenager", rep, 'g');
  }

  lemma {:induction false} BebeHeadNoAdult(rep: string)
    ensures Replace("extreme close-up face portrait of a cute" + " " + "newborn baby", "adult", rep)
            == "extreme close-up face portrait of a cute" + " " + "newborn baby"
  {
    assert 'd' !in "extreme close-up face portrait of a cute" + " " + "newborn baby";
    ReplaceAbsent("extreme close-up face portrait of a cute" + " " + "newborn baby", "adult", rep, 'd');
  }

  lemma {:induction false} BebeHeadNewborn(rep: string)
    ensures Replace("extreme close-up face portrait of a cute" + " " + "newborn baby", "newborn baby", rep)
            == "extreme close-up face portrait of a cute" + " " + rep
  {
    assert 'n' !in "extreme close-up face portrait of a cute" + " ";
    ReplaceAtEnd("extreme close-up face portrait of a cute" + " ", "newborn baby", rep);
  }

  lemma {:induction false} BebeHeadAfterNoChild(l: string, rep: string)
    requires 'h' !in l
    ensures Replace("extreme close-up face portrait of a cute" + " " + ("newborn baby " + l), "child", rep)
            == "extreme close-up face portrait of a cute" + " " + ("newborn baby " + l)
  {
    assert 'h' !in "extreme close-up face portrait of a cute" + " " + ("newborn baby " + l);
    ReplaceAbsent("extreme close-up face portrait of a cute" + " " + ("newborn baby " + l), "child", rep, 'h');
  }

  lemma {:induction false} BebeHeadAfterNoTeen(l: string, rep: string)
    requires 'g' !in l
    ensures Replace("extreme close-up face portrait of a cute" + " " + ("newborn baby " + l), "teenager", rep)
            == "extreme close-up face portrait of a cute" + " " + ("newborn baby " + l)
  {
    assert 'g' !in "extreme close-up face portrait of a cute" + " " + ("newborn baby " + l);
    ReplaceAbsent("extreme close-up face portrait of a cute" + " " + ("newborn baby " + l), "teenager", rep, 'g');
  }

  /** Both chains find only 'newborn baby' in the Bebê head, and put the gender word after it. */
  lemma BebeHead(g: Gender)
    ensures PhaseRewrite("extreme close-up face portrait of a cute" + " " + "newborn baby", g)
            == "extreme close-up face portrait of a cute" + " " + ("newborn baby " + Lower(g))
    ensures SingleRewrite("extreme close-up face portrait of a cute" + " " + "newborn baby", g)
            == "extreme close-up face portrait of a cute" + " " + ("newborn baby " + Lower(g))
  {
    var l := Lower(g);
    PhaseRewriteSteps("extreme close-up face portrait of a cute" + " " + "newborn baby", g);
    BebeHeadNoChild(ChildWord(g));
    BebeHeadNoTeen(TeenWord(g));
    BebeHeadNoAdult(AdultWord(g));
    BebeHeadNewborn("newborn baby " + l);
    GenderWordsLack(g);
    BebeHeadAfterNoChild(l, l + " child");
    BebeHeadAfterNoTeen(l, l + " teenager");
  }

  // The Criança head "cute happy child".

  lemma {:induction false} CriancaHeadChild(rep: string)
    ensures Replace("cute happy" + " " + "child", "child", rep) == "cute happy" + " " + rep
  {
    ReplaceLastWord("cute happy", "child", rep, 'i');
  }

  lemma {:induction false} CriancaHeadKeepsBefore(rn: string)
    ensures Replace("cute happy" + " " + "child", "newborn baby", rn) == "cute happy" + " " + "child"
  {
    assert 'w' !in "cute happy" + " " + "child";
    ReplaceAbsent("cute happy" + " " + "child", "newborn baby", rn, 'w');
  }

  lemma {:induction false} CriancaHeadKeepsAfter(w: string, rt: string, ra: string, rn: string)
    requires 'n' !in w && 'd' !in w
    ensures Replace("cute happy" + " " + w, "teenager", rt) == "cute happy" + " " + w
    ensures Replace("cute happy" + " " + w, "adult", ra) == "cute happy" + " " + w
    ensures Replace("cute happy" + " " + w, "newborn baby", rn) == "cute happy" + " " + w
  {
    var r := "cute happy" + " " + w;
    assert 'n' !in r && 'd' !in r;
    ReplaceAbsent(r, "teenager", rt, 'n');
    ReplaceAbsent(r, "adult", ra, 'd');
    ReplaceAbsent(r, "newborn baby", rn, 'n');
  }

  lemma {:induction false} CriancaHeadKeepsSingle(l: string, rep: string)
    requires 'g' !in l
    ensures Replace("cute happy" + " " + (l + " child"), "teenager", rep) == "cute happy" + " " + (l + " child")
  {
    assert 'g' !in "cute happy" + " " + (l + " child");
    ReplaceAbsent("cute happy" + " " + (l + " child"), "teenager", rep, 'g');
  }

  /** 'child' becomes the gendered noun in the all-phases path and gets the gender word before it in the other. */
  lemma CriancaHead(g: Gender)
    ensures PhaseRewrite("cute happy" + " " + "child", g) == "cute happy" + " " + ChildWord(g)
    ensures SingleRewrite("cute happy" + " " + "child", g) == "cute happy" + " " + (Lower(g) + " child")
  {
    var l := Lower(g);
    PhaseRewriteSteps("cute happy" + " " + "child", g);
    CriancaHeadChild(ChildWord(g));
    CriancaHeadChild(l + " child");
    CriancaHeadKeepsBefore("newborn baby " + l);
    GenderWordsLack(g);
    CriancaHeadKeepsAfter(ChildWord(g), TeenWord(g), AdultWord(g), "newborn baby " + l);
    CriancaHeadKeepsSingle(l, l + " teenager");
  }

  // The Adolescente head "portrait of a teenager".

  lemma {:induction false} AdolescenteHeadTeen(rep: string)
    ensures Replace("portrait of a" + " " + "teenager", "teenager", rep) == "portrait of a" + " " + rep
  {
    ReplaceLastWord("portrait of a", "teenager", rep, 'e');
  }

  lemma {:induction false} AdolescenteHeadKeepsBefore(rc: string, rn: string)
    ensures Replace("portrait of a" + " " + "teenager", "child", rc) == "portrait of a" + " " + "teenager"
    ensures Replace("portrait of a" + " " + "teenager", "newborn baby", rn) == "portrait of a" + " " + "teenager"
  {
    var h := "portrait of a" + " " + "teenager";
    assert 'c' !in h && 'w' !in h;
    ReplaceAbsent(h, "child", rc, 'c');
    ReplaceAbsent(h, "newborn baby", rn, 'w');
  }

  lemma {:induction false} AdolescenteHeadKeepsAfter(w: string, ra: string, rn: string)
    requires 'd' !in w && 'w' !in w
    ensures Replace("portrait of a" + " " + w, "adult", ra) == "portrait of a" + " " + w
    ensures Replace("portrait of a" + " " + w, "newborn baby", rn) == "portrait of a" + " " + w
  {
    var r := "portrait of a" + " " + w;
    assert 'd' !in r && 'w' !in r;
    ReplaceAbsent(r, "adult", ra, 'd');
    ReplaceAbsent(r, "newborn baby", rn, 'w');
  }

  /** 'teenager' becomes 'male/female teenager' in the all-phases path and gets the gender word before it in the other. */
  lemma AdolescenteHead(g: Gender)
    ensures PhaseRewrite("portrait of a" + " " + "teenager", g) == "portrait of a" + " " + TeenWord(g)
    ensures SingleRewrite("portrait of a" + " " + "teenager", g) == "portrait of a" + " " + (Lower(g) + " teenager")
  {
    var l := Lower(g);
    PhaseRewriteSteps("portrait of a" + " " + "teenager", g);
    AdolescenteHeadKeepsBefore(ChildWord(g), "newborn baby " + l);
    AdolescenteHeadKeepsBefore(l + " child", "newborn baby " + l);
    AdolescenteHeadTeen(TeenWord(g));
    AdolescenteHeadTeen(l + " teenager");
    GenderWordsLack(g);
    AdolescenteHeadKeepsAfter(TeenWord(g), AdultWord(g), "newborn baby " + l);
  }

  // The Adulto head "professional headshot portrait of a young adult".

  /** No 'teenager' in the Adulto head, although it holds every letter of the word. */
  lemma {:induction false} AdultoHeadNoTeen(rep: string)
    ensures Replace("professional headshot portrait of a" + " " + ("young" + " " + "adult"), "teenager", rep)
            == "professional headshot portrait of a" + " " + ("young" + " " + "adult")
  {
    var x0 := "professional headshot portrait of a";
    var y := "young" + " " + "adult";
    assert 'g' !in x0 && 'e' !in y;
    ReplaceSeparated(x0, ' ', y, "teenager", rep);
    ReplaceAbsent(x0, "teenager", rep, 'g');
    ReplaceAbsent(y, "teenager", rep, 'e');
  }

  lemma {:induction false} AdultoLeadNoAdult(rep: string)
    ensures Replace("professional headshot portrait of a", "adult", rep) == "professional headshot portrait of a"
  {
    ReplaceAbsent("professional headshot portrait of a", "adult", rep, 'u');
  }

  lemma {:induction false} AdultoHeadAdult(rep: string)
    ensures Replace("professional headshot portrait of a" + " " + ("young" + " " + "adult"), "adult", rep)
            == "professional headshot portrait of a" + " " + ("young" + " " + rep)
  {
    ReplaceSeparated("professional headshot portrait of a", ' ', "young" + " " + "adult", "adult", rep);
    AdultoLeadNoAdult(rep);
    ReplaceLastWord("young", "adult", rep, 'a');
  }

  lemma {:induction false} AdultoHeadKeeps(rc: string, rn: string)
    ensures Replace("professional headshot portrait of a" + " " + ("young" + " " + "adult"), "child", rc)
            == "professional headshot portrait of a" + " " + ("young" + " " + "adult")
    ensures Replace("professional headshot portrait of a" + " " + ("young" + " " + "adult"), "newborn baby", rn)
            == "professional headshot portrait of a" + " " + ("young" + " " + "adult")
  {
    var h := "professional headshot portrait of a" + " " + ("young" + " " + "adult");
    assert 'c' !in h && 'w' !in h;
    ReplaceAbsent(h, "child", rc, 'c');
    ReplaceAbsent(h, "newborn baby", rn, 'w');
  }

  lemma {:induction false} AdultoHeadKeepsAfter(w: string, rn: string)
    requires 'b' !in w
    ensures Replace("professional headshot portrait of a" + " " + ("young" + " " + w), "newborn baby", rn)
            == "professional headshot portrait of a" + " " + ("young" + " " + w)
  {
    var r := "professional headshot portrait of a" + " " + ("young" + " " + w);
    assert 'b' !in r;
    ReplaceAbsent(r, "newborn baby", rn, 'b');
  }

  /** 'young adult' becomes 'young man/woman' in the all-phases path; the single-image chain leaves it alone. */
  lemma AdultoHead(g: Gender)
    ensures PhaseRewrite("professional headshot portrait of a" + " " + ("young" + " " + "adult"), g)
            == "professional headshot portrait of a" + " " + ("young" + " " + AdultWord(g))
    ensures SingleRewrite("professional headshot portrait of a" + " " + ("young" + " " + "adult"), g)
            == "professional headshot portrait of a" + " " + ("young" + " " + "adult")
  {
    var l := Lower(g);
    PhaseRewriteSteps("professional headshot portrait of a" + " " + ("young" + " " + "adult"), g);
    AdultoHeadKeeps(ChildWord(g), "newborn baby " + l);
    AdultoHeadKeeps(l + " child", "newborn baby " + l);
    AdultoHeadNoTeen(TeenWord(g));
    AdultoHeadNoTeen(l + " teenager");
    AdultoHeadAdult(AdultWord(g));
    GenderWordsLack(g);
    AdultoHeadKeepsAfter(AdultWord(g), "newborn baby " + l);
  }

  // Whole descriptions: the head as above, the comma-led phrases unchanged.

  lemma {:induction false} BebePhrase1(a: string, g: Gender)
    ensures PhaseRewrite(a + ", 1 month old", g) == PhaseRewrite(a, g) + ", 1 month old"
    ensures SingleRewrite(a + ", 1 month old", g) == SingleRewrite(a, g) + ", 1 month old"
  {
    RewritesPhrase(a, ", 1 month old", g, 'c', 'e', 'a', 'e');
  }

  lemma {:induction false} BebePhrase2(a: string, g: Gender)
    ensures PhaseRewrite(a + ", sleeping peacefully", g) == PhaseRewrite(a, g) + ", sleeping peacefully"
    ensures SingleRewrite(a + ", sleeping peacefully", g) == SingleRewrite(a, g) + ", sleeping peacefully"
  {
    RewritesPhrase(a, ", sleeping peacefully", g, 'h', 't', 'd', 'w');
  }

  lemma {:induction false} BebePhrase3(a: string, g: Gender)
    ensures PhaseRewrite(a + ", perfect smooth skin", g) == PhaseRewrite(a, g) + ", perfect smooth skin"
    ensures SingleRewrite(a + ", perfect smooth skin", g) == SingleRewrite(a, g) + ", perfect smooth skin"
  {
    RewritesPhrase(a, ", perfect smooth skin", g, 'l', 'a', 'a', 'w');
  }

  lemma {:induction false} BebeTail(a: string, g: Gender)
    ensures PhaseRewrite(a + ", 1 month old" + ", sleeping peacefully" + ", perfect smooth skin", g) == PhaseRewrite(a, g) + ", 1 month old" + ", sleeping peacefully" + ", perfect smooth skin"
    ensures SingleRewrite(a + ", 1 month old" + ", sleeping peacefully" + ", perfect smooth skin", g) == SingleRewrite(a, g) + ", 1 month old" + ", sleeping peacefully" + ", perfect smooth skin"
  {
    BebePhrase1(a, g);
    BebePhrase2(a + ", 1 month old", g);
    BebePhrase3(a + ", 1 month old" + ", sleeping peacefully", g);
  }

  /** Bebê: both paths give "... newborn baby <gênero>, 1 month old, sleeping peacefully, perfect smooth skin". */
  lemma BebeDesc(g: Gender)
    ensures PhaseAgeDesc(Bebe, g)
            == "extreme close-up face portrait of a cute" + " " + ("newborn baby " + Lower(g))
               + ", 1 month old" + ", sleeping peacefully" + ", perfect smooth skin"
    ensures SingleAgeDesc(Bebe, g) == PhaseAgeDesc(Bebe, g)
  {
    BebeHead(g);
    BebeTail("extreme close-up face portrait of a cute" + " " + "newborn baby", g);
  }

  lemma {:induction false} CriancaPhrase1(a: string, g: Gender)
    ensures PhaseRewrite(a + ", 6 years old", g) == PhaseRewrite(a, g) + ", 6 years old"
    ensures SingleRewrite(a + ", 6 years old", g) == SingleRewrite(a, g) + ", 6 years old"
  {
    RewritesPhrase(a, ", 6 years old", g, 'c', 't', 'u', 'n');
  }

  lemma {:induction false} CriancaPhrase2(a: string, g: Gender)
    ensures PhaseRewrite(a + ", smiling", g) == PhaseRewrite(a, g) + ", smiling"
    ensures SingleRewrite(a + ", smiling", g) == SingleRewrite(a, g) + ", smiling"
  {
    RewritesPhrase(a, ", smiling", g, 'c', 't', 'a', 'e');
  }

  lemma {:induction false} CriancaPhrase3(a: string, g: Gender)
    ensures PhaseRewrite(a + ", headshot portrait", g) == PhaseRewrite(a, g) + ", headshot portrait"
    ensures SingleRewrite(a + ", headshot portrait", g) == SingleRewrite(a, g) + ", headshot portrait"
  {
    RewritesPhrase(a, ", headshot portrait", g, 'c', 'n', 'u', 'n');
  }

  lemma {:induction false} CriancaTail(a: string, g: Gender)
    ensures PhaseRewrite(a + ", 6 years old" + ", smiling" + ", headshot portrait", g) == PhaseRewrite(a, g) + ", 6 years old" + ", smiling" + ", headshot portrait"
    ensures SingleRewrite(a + ", 6 years old" + ", smiling" + ", headshot portrait", g) == SingleRewrite(a, g) + ", 6 years old" + ", smiling" + ", headshot portrait"
  {
    CriancaPhrase1(a, g);
    CriancaPhrase2(a + ", 6 years old", g);
    CriancaPhrase3(a + ", 6 years old" + ", smiling", g);
  }

  /** Criança: "cute happy boy/girl, ..." in the all-phases path, "cute happy menino/menina child, ..." in the other. */
  lemma CriancaDesc(g: Gender)
    ensures PhaseAgeDesc(Crianca, g)
            == "cute happy" + " " + ChildWord(g) + ", 6 years old" + ", smiling" + ", headshot portrait"
    ensures SingleAgeDesc(Crianca, g)
            == "cute happy" + " " + (Lower(g) + " child") + ", 6 years old" + ", smiling" + ", headshot portrait"
  {
    CriancaHead(g);
    CriancaTail("cute happy" + " " + "child", g);
  }

  lemma {:induction false} AdolescentePhrase1(a: string, g: Gender)
    ensures PhaseRewrite(a + ", 16 years old", g) == PhaseRewrite(a, g) + ", 16 years old"
    ensures SingleRewrite(a + ", 16 years old", g) == SingleRewrite(a, g) + ", 16 years old"
  {
    RewritesPhrase(a, ", 16 years old", g, 'c', 't', 'u', 'n');
  }

  lemma {:induction false} AdolescentePhrase2(a: string, g: Gender)
    ensures PhaseRewrite(a + ", natural look", g) == PhaseRewrite(a, g) + ", natural look"
    ensures SingleRewrite(a + ", natural look", g) == SingleRewrite(a, g) + ", natural look"
  {
    RewritesPhrase(a, ", natural look", g, 'c', 'e', 'd', 'e');
  }

  lemma {:induction false} AdolescentePhrase3(a: string, g: Gender)
    ensures PhaseRewrite(a + ", high school photo style", g) == PhaseRewrite(a, g) + ", high school photo style"
    ensures SingleRewrite(a + ", high school photo style", g) == SingleRewrite(a, g) + ", high school photo style"
  {
    RewritesPhrase(a, ", high school photo style", g, 'd', 'n', 'a', 'n');
  }

  lemma {:induction false} AdolescenteTail(a: string, g: Gender)
    ensures PhaseRewrite(a + ", 16 years old" + ", natural look" + ", high school photo style", g) == PhaseRewrite(a, g) + ", 16 years old" + ", natural look" + ", high school photo style"
    ensures SingleRewrite(a + ", 16 years old" + ", natural look" + ", high school photo style", g) == SingleRewrite(a, g) + ", 16 years old" + ", natural look" + ", high school photo style"
  {
    AdolescentePhrase1(a, g);
    AdolescentePhrase2(a + ", 16 years old", g);
    AdolescentePhrase3(a + ", 16 years old" + ", natural look", g);
  }

  /** Adolescente: "portrait of a male/female teenager, ..." and "portrait of a menino/menina teenager, ...". */
  lemma AdolescenteDesc(g: Gender)
    ensures PhaseAgeDesc(Adolescente, g)
            == "portrait of a" + " " + TeenWord(g) + ", 16 years old" + ", natural look" + ", high school photo style"
    ensures SingleAgeDesc(Adolescente, g)
            == "portrait of a" + " " + (Lower(g) + " teenager") + ", 16 years old" + ", natural look" + ", high school photo style"
  {
    AdolescenteHead(g);
    AdolescenteTail("portrait of a" + " " + "teenager", g);
  }

  lemma {:induction false} AdultoPhrase1(a: string, g: Gender)
    ensures PhaseRewrite(a + ", 28 years old", g) == PhaseRewrite(a, g) + ", 28 years old"
    ensures SingleRewrite(a + ", 28 years old", g) == SingleRewrite(a, g) + ", 28 years old"
  {
    RewritesPhrase(a, ", 28 years old", g, 'c', 't', 'u', 'n');
  }

  lemma {:induction false} AdultoPhrase2(a: string, g: Gender)
    ensures PhaseRewrite(a + ", confident expression", g) == PhaseRewrite(a, g) + ", confident expression"
    ensures SingleRewrite(a + ", confident expression", g) == SingleRewrite(a, g) + ", confident expression"
  {
    RewritesPhrase(a, ", confident expression", g, 'h', 'a', 'a', 'w');
  }

  lemma {:induction false} AdultoTail(a: string, g: Gender)
    ensures PhaseRewrite(a + ", 28 years old" + ", confident expression", g) == PhaseRewrite(a, g) + ", 28 years old" + ", confident expression"
    ensures SingleRewrite(a + ", 28 years old" + ", confident expression", g) == SingleRewrite(a, g) + ", 28 years old" + ", confident expression"
  {
    AdultoPhrase1(a, g);
    AdultoPhrase2(a + ", 28 years old", g);
  }

  /** Adulto: "... young man/woman, ..." in the all-phases path; the single-image chain would leave it as it is. */
  lemma AdultoDesc(g: Gender)
    ensures PhaseAgeDesc(Adulto, g)
            == "professional headshot portrait of a" + " " + ("young" + " " + AdultWord(g)) + ", 28 years old" + ", confident expression"
    ensures SingleAgeDesc(Adulto, g) == AgePrompt(Adulto)
  {
    AdultoHead(g);
    AdultoTail("professional headshot portrait of a" + " " + ("young" + " " + "adult"), g);
  }

  // The two example texts quoted for Criança with gender Menino.

  lemma BoyTextPieces()
    ensures "cute happy" + " " + "boy" == "cute happy boy"
    ensures "cute happy boy" + ", 6 years old" == "cute happy boy, 6 years old"
  {
  }

  lemma BoyTextWhole()
    ensures "cute happy boy, 6 years old" + ", smiling" == "cute happy boy, 6 years old, smiling"
    ensures "cute happy boy, 6 years old, smiling" + ", headshot portrait"
            == "cute happy boy, 6 years old, smiling, headshot portrait"
  {
  }

  /** All-phases Criança for Menino: "cute happy boy, 6 years old, smiling, headshot portrait". */
  lemma CriancaMeninoPhase()
    ensures PhaseAgeDesc(Crianca, Menino) == "cute happy boy, 6 years old, smiling, headshot portrait"
  {
    CriancaDesc(Menino);
    assert ChildWord(Menino) == "boy";
    BoyTextPieces();
    BoyTextWhole();
  }

  lemma MeninoChildPieces()
    ensures "cute happy" + " " + ("menino" + " child") == "cute happy menino child"
    ensures "cute happy menino child" + ", 6 years old" == "cute happy menino child, 6 years old"
  {
  }

  lemma MeninoChildWhole()
    ensures "cute happy menino child, 6 years old" + ", smiling" == "cute happy menino child, 6 years old, smiling"
    ensures "cute happy menino child, 6 years old, smiling" + ", headshot portrait"
            == "cute happy menino child, 6 years old, smiling, headshot portrait"
  {
  }

  /** Single-image Criança for Menino keeps 'child' and puts the Portuguese word before it. */
  lemma CriancaMeninoSingle()
    ensures SingleAgeDesc(Crianca, Menino) == "cute happy menino child, 6 years old, smiling, headshot portrait"
  {
    CriancaDesc(Menino);
    assert Lower(Menino) == "menino";
    MeninoChildPieces();
    MeninoChildWhole();
  }

  /**
   * The 'newborn baby' step: the text is cut at each occurrence and glued
   * back with the suffixed phrase, so every original occurrence gets exactly
   * one suffix, and the suffix is never itself rewritten.
   */
  lemma {:induction false} NewbornSuffixOnce(s: string, g: Gender)
    ensures Replace(s, "newborn baby", "newborn baby " + Lower(g))
            == Join(Split(s, "newborn baby"), "newborn baby " + Lower(g))
    ensures Join(Split(s, "newborn baby"), "newborn baby") == s
    ensures |Replace(s, "newborn baby", "newborn baby " + Lower(g))|
            == |s| + Count(s, "newborn baby") * (|Lower(g)| + 1)
  {
    ReplaceIsJoinOfSplit(s, "newborn baby", "newborn baby " + Lower(g));
    SplitJoinRoundTrip(s, "newborn baby");
    ReplaceLength(s, "newborn baby", "newborn baby " + Lower(g));
  }
}
