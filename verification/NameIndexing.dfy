/**
  What file name searches rely on: file name terms are the words of the stored names,
  and only they carry the prefix.  The operations that add, rename and remove documents
  keep it so (src/engine/writetransaction.cpp, src/file/metadatamover.cpp).
 */
module NameIndexing {
  import opened IdUtils
  import opened IdTree
  import opened InvertedIndex
  import opened Documents
  import opened AddPaths
  import opened Replacements
  import opened StoredTables
  import opened WriteTransactions
  import opened Transactions
  import opened MetadataMovers

  /** A document's terms, if it has this name. */
  ghost predicate Named(doc: Doc, name: string, termList: string -> seq<Term>) {
    forall word ::
      FileNameTerm(word) !in doc.content && FileNameTerm(word) !in doc.xattr &&
      (FileNameTerm(word) in doc.fileName <==> word in termList(name))
  }

  /** Every document has the file name terms of the name under which it is stored, or none. */
  ghost predicate NamesIndexed(docs: Docs, files: Files, termList: string -> seq<Term>) {
    forall id :: id in docs ==> NameIndexed(docs[id], files, id, termList)
  }

  ghost predicate NameIndexed(doc: Doc, files: Files, id: Id, termList: string -> seq<Term>) {
    if doc.fileName == map[] then Unnamed(doc) else id in files && Named(doc, files[id].name, termList)
  }

  ghost predicate Unnamed(doc: Doc) {
    forall word :: FileNameTerm(word) !in doc.content && FileNameTerm(word) !in doc.xattr
  }

  /** Real ids, and positions in the order in which they were found. */
  ghost predicate ProperDocs(docs: Docs) {
    0 !in docs && forall id :: id in docs ==> ProperDoc(docs[id])
  }

  /** That is what the queries ask for. */
  lemma NamesAreIndexed(docs: Docs, files: Files, termList: string -> seq<Term>)
    requires NamesIndexed(docs, files, termList)
    ensures FileNamesIndexed(docs, files, termList)
  {
    forall id, word
      ensures FileNameTerm(word) in TermsOf(Inversion(docs), id) <==>
        id in docs && docs[id].fileName != map[] && word in termList(NameOfDocument(files, id))
    {
      InversionAt(docs, id);
      assert id in docs ==> NameIndexed(docs[id], files, id, termList);
    }
  }

  lemma DocsAreProper(docs: Docs)
    requires ProperDocs(docs)
    ensures ProperIndex(Inversion(docs))
  {
  }

  /** A document is added under its name, and no other entry changes. */
  lemma AddKeepsNames(docs: Docs, files: Files, files': Files, doc: Document, termList: string -> seq<Term>)
    requires NamesIndexed(docs, files, termList) && Entered(files, files', doc)
    requires Named(DocOf(doc), NameOf(doc.url), termList)
    ensures NamesIndexed(docs[doc.id := DocOf(doc)], files', termList)
  {
    forall id | id in docs && id != doc.id ensures NameIndexed(docs[id], files', id, termList) {
      assert NameIndexed(docs[id], files, id, termList);
    }
  }

  /** A document gets a new name and that name's terms. */
  lemma RenameKeepsNames(s: Snapshot, id: Id, parentId: Id, toPath: string, nameTerms: string -> seq<TermEntry>,
                         termList: string -> seq<Term>)
    requires NamesIndexed(s.docs, s.files, termList) && NamesTerms(nameTerms, termList)
    ensures var after := Renaming(s, id, parentId, toPath, nameTerms); NamesIndexed(after.docs, after.files, termList)
  {
    var after := Renaming(s, id, parentId, toPath, nameTerms);
    forall x | x in after.docs ensures NameIndexed(after.docs[x], after.files, x, termList) {
      assert x in s.docs ==> NameIndexed(s.docs[x], s.files, x, termList);
      assert NameTermsAre(nameTerms(NameOf(toPath)), NameOf(toPath), termList);
    }
  }

  /** The file name terms that are made of a name are its words with the prefix. */
  ghost predicate NamesTerms(nameTerms: string -> seq<TermEntry>, termList: string -> seq<Term>) {
    forall name :: NameTermsAre(nameTerms(name), name, termList)
  }

  ghost predicate NameTermsAre(entries: seq<TermEntry>, name: string, termList: string -> seq<Term>) {
    forall word :: FileNameTerm(word) in EntryMap(entries) <==> word in termList(name)
  }

  /** Documents go together with their entries. */
  lemma RemovingKeepsNames(s: Snapshot, gone: set<Id>, termList: string -> seq<Term>)
    requires NamesIndexed(s.docs, s.files, termList)
    ensures NamesIndexed(Without(s, gone).docs, Without(s, gone).files, termList)
  {
    forall id | id in s.docs && id !in gone ensures NameIndexed(s.docs[id], s.files - gone, id, termList) {
      assert NameIndexed(s.docs[id], s.files, id, termList);
    }
  }

  /** Positions of name terms come in the order in which they are found. */
  ghost predicate ProperTermsOf(nameTerms: string -> seq<TermEntry>) {
    forall name {:trigger nameTerms(name)} :: InOrder(EntryMap(nameTerms(name)))
  }

  lemma MoveKeepsProper(before: Snapshot, after: Snapshot, to: string, nameTerms: string -> seq<TermEntry>,
                        gone: set<Id>, id: Id, parentId: Id)
    requires ProperDocs(before.docs) && ProperTermsOf(nameTerms) &&
      MoveDone(before, after, to, nameTerms, gone, id, parentId)
    requires AllSeparate(before.docs)
    ensures ProperDocs(after.docs)
  {
    var rest := before.docs - gone;
    assert ProperDocs(rest) && AllSeparate(rest);
    if id != 0 && parentId != 0 {
      RenamingKeepsProper(rest, id, EntryMap(nameTerms(NameOf(Chop(to)))));
      assert after.docs == RenamedDocs(rest, id, Chop(to), nameTerms);
    } else {
      assert after.docs == rest;
    }
  }

  lemma RenamingKeepsProper(docs: Docs, id: Id, terms: TermMap)
    requires ProperDocs(docs) && AllSeparate(docs) && InOrder(terms) && id != 0
    ensures ProperDocs(Updated(docs, id, FileName, terms))
  {
    var docs' := Updated(docs, id, FileName, terms);
    assert id in docs ==> Separate(docs[id]) && ProperDoc(docs[id]);
    NewNamesInOrder(DocAt(docs, id), terms);
    forall x | x in docs' ensures ProperDoc(docs'[x]) {
      assert x != id ==> x in docs && docs'[x] == docs[x];
    }
  }

  ghost predicate ProperDoc(doc: Doc) {
    InOrder(Merge(doc))
  }

  ghost predicate InOrder(terms: TermMap) {
    forall t :: t in terms ==> Nondecreasing(terms[t])
  }

  lemma NewNamesInOrder(doc: Doc, terms: TermMap)
    requires Separate(doc) && ProperDoc(doc) && InOrder(terms)
    ensures ProperDoc(doc.(fileName := terms))
  {
    forall t | t in Merge(doc.(fileName := terms)) ensures Nondecreasing(Merge(doc.(fileName := terms))[t]) {
      assert t !in terms ==> Merge(doc)[t] == Merge(doc.(fileName := terms))[t];
    }
  }

  /** Whatever moveFileMetadata does, file names can be searched afterwards. */
  lemma MoveKeepsNames(before: Snapshot, after: Snapshot, to: string, nameTerms: string -> seq<TermEntry>,
                       gone: set<Id>, id: Id, parentId: Id, termList: string -> seq<Term>)
    requires NamesIndexed(before.docs, before.files, termList) && NamesTerms(nameTerms, termList)
    requires MoveDone(before, after, to, nameTerms, gone, id, parentId)
    ensures NamesIndexed(after.docs, after.files, termList)
  {
    RemovingKeepsNames(before, gone, termList);
    if id != 0 && parentId != 0 {
      RenameKeepsNames(Without(before, gone), id, parentId, Chop(to), nameTerms, termList);
    }
  }
}
