/** The tokens of the constant pieces of text that generated conditions are put together from. */
module SqlPieces {
  import opened SqlText

  lemma LexTwoParens()
    ensures Lex("((") == [LParen, LParen]
  {
    assert "(("[1..] == "(";
    assert "("[1..] == "";
  }

  lemma LexSpaceParen()
    ensures Lex(" (") == [LParen]
  {
    assert " ("[1..] == "(";
    assert "("[1..] == "";
  }

  lemma LexCloseParen()
    ensures Lex(")") == [RParen]
  {
    assert ")"[1..] == "";
  }

  lemma LexOrWord()
    ensures Lex(" OR ") == [Or]
  {
    assert "OR "[2..] == " ";
    assert "OR "[1..] == "R ";
    assert "R "[1..] == " ";
    assert "OR "[..2] == "OR";
    assert " OR "[1..] == "OR ";
    assert " "[1..] == "";
  }

  lemma LexOrParen()
    ensures Lex(" OR (") == [Or, LParen]
  {
    assert "OR ("[2..] == " (";
    assert "OR ("[1..] == "R (";
    assert "R ("[1..] == " (";
    assert "OR ("[..2] == "OR";
    assert " OR ("[1..] == "OR (";
    assert " ("[1..] == "(";
    assert "("[1..] == "";
  }

  lemma LexAndWord()
    ensures Lex(" AND ") == [And]
  {
    assert "AND "[3..] == " ";
    assert "ND "[1..] == "D ";
    assert "AND "[1..] == "ND ";
    assert "D "[1..] == " ";
    assert "AND "[..3] == "AND";
    assert " AND "[1..] == "AND ";
    assert " "[1..] == "";
  }

  lemma LexCloseAnd()
    ensures Lex(") AND ") == [RParen, And]
  {
    LexCloseParen();
    LexAndWord();
    hide Lex;
    assert ") AND " == ")" + " AND ";
    LexAppend(")", " AND ");
  }

  lemma LexAtLeast()
    ensures Lex(" >= ?") == [Compare(Ge), Placeholder]
  {
    assert " >= ?"[1..] == ">= ?";
    assert ">= ?"[2..] == " ?";
    assert " ?"[1..] == "?";
    assert "?"[1..] == "";
  }

  lemma LexAtMost()
    ensures Lex(" <= ?") == [Compare(Le), Placeholder]
  {
    assert " <= ?"[1..] == "<= ?";
    assert "<= ?"[2..] == " ?";
    assert " ?"[1..] == "?";
    assert "?"[1..] == "";
  }

  lemma LexAtMostClose()
    ensures Lex(" <= ?)") == [Compare(Le), Placeholder, RParen]
  {
    assert " <= ?)"[1..] == "<= ?)";
    assert "<= ?)"[2..] == " ?)";
    assert " ?)"[1..] == "?)";
    assert "?)"[1..] == ")";
    assert ")"[1..] == "";
  }

  lemma LexEqual()
    ensures Lex(" = ?") == [Compare(Eq), Placeholder]
  {
    assert " = ?"[1..] == "= ?";
    assert "= ?"[1..] == " ?";
    assert " ?"[1..] == "?";
    assert "?"[1..] == "";
  }

  lemma LexNonNegative()
    ensures Lex(" >= 0") == [Compare(Ge), Number(0)]
  {
    assert "0"[1..] == "";
    assert "0"[..1] == "0";
    assert " >= 0"[1..] == ">= 0";
    assert ">= 0"[2..] == " 0";
    assert " 0"[1..] == "0";
  }

  lemma LexInOpen()
    ensures Lex(" IN (") == [In, LParen]
  {
    assert " IN ("[1..] == "IN (";
    assert "IN ("[1..] == "N (";
    assert "N ("[1..] == " (";
    assert "IN ("[..2] == "IN";
    assert "IN ("[2..] == " (";
    assert " ("[1..] == "(";
    assert "("[1..] == "";
  }

  lemma LexNotWord()
    ensures Lex(" NOT") == [Not]
  {
    assert " NOT"[1..] == "NOT";
    assert "NOT"[1..] == "OT";
    assert "OT"[1..] == "T";
    assert "T"[1..] == "";
    assert "NOT"[..3] == "NOT";
  }

  lemma LexPlaceholder()
    ensures Lex("?") == [Placeholder]
  {
    assert "?"[1..] == "";
  }

  lemma LexPlaceholderComma()
    ensures Lex("?,") == [Placeholder, Comma]
  {
    assert "?,"[1..] == ",";
    assert ","[1..] == "";
  }

  lemma LexOpenParen()
    ensures Lex("(") == [LParen]
  {
    assert "("[1..] == "";
  }

  lemma LexSimilarWord()
    ensures Lex(" SIMILAR") == [Similar]
  {
    assert " SIMILAR"[1..] == "SIMILAR";
    assert "SIMILAR"[1..] == "IMILAR";
    assert "IMILAR"[1..] == "MILAR";
    assert "MILAR"[1..] == "ILAR";
    assert "ILAR"[1..] == "LAR";
    assert "LAR"[1..] == "AR";
    assert "AR"[1..] == "R";
    assert "R"[1..] == "";
    assert WordLength("ILAR") == 4;
    assert WordLength("SIMILAR") == 7;
    assert "SIMILAR"[..7] == "SIMILAR";
    assert "SIMILAR"[7..] == "";
  }

  lemma LexToWord()
    ensures Lex(" TO") == [To]
  {
    assert " TO"[1..] == "TO";
    assert "TO"[1..] == "O";
    assert "O"[1..] == "";
    assert "TO"[..2] == "TO";
    assert "TO"[2..] == "";
  }

  lemma LexArgClose()
    ensures Lex(" ?)") == [Placeholder, RParen]
  {
    assert " ?)"[1..] == "?)";
    assert "?)"[1..] == ")";
    assert ")"[1..] == "";
  }

  lemma LexToArg()
    ensures Lex(" TO ?)") == [To, Placeholder, RParen]
  {
    LexToWord();
    LexArgClose();
    hide Lex;
    assert " TO ?)" == " TO" + " ?)";
    LexAppend(" TO", " ?)");
  }
}
