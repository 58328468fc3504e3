/** Book positions of a listing and their constructor. */
module Data {
  import opened Wrappers
  import opened GoStrings

  /** A listing entry; `bookLinkref` (such as "/ebooks/34505") is its unique ID. */
  datatype Book = Book(title: string, author: string, bookLinkref: string) {
    /** `Book.ID()`. */
    function ID(): string {
      bookLinkref
    }
  }

  /** "linkref is required". */
  datatype BookError = LinkrefRequired

  /** `NewBook(title, author, linkref)`: an empty link reference is refused; any
      other gets a leading "/" unless it already has one. */
  function NewBook(title: string, author: string, linkref: string): (r: Ret<Book, BookError>)
    ensures r.err.Some? <==> linkref == ""
    ensures r.err.Some? ==> r == Ret(Book("", "", ""), Some(LinkrefRequired))
    ensures r.Ok() ==> r.value.title == title && r.value.author == author
    ensures r.Ok() ==> |r.value.ID()| > 0 && r.value.ID()[0] == '/'
    ensures r.Ok() ==> HasPrefix(r.value.ID(), "/")
    ensures r.Ok() && HasPrefix(linkref, "/") ==> r.value.ID() == linkref
    ensures r.Ok() && !HasPrefix(linkref, "/") ==> r.value.ID() == "/" + linkref
  {
    if linkref == "" then Ret(Book("", "", ""), Some(LinkrefRequired))
    else
      var ref := if HasPrefix(linkref, "/") then linkref else "/" + linkref;
      Ret(Book(title, author, ref), None)
  }

  /** Normalisation is idempotent: a book built from the ID of another keeps
      that ID unchanged. */
  lemma NewBookIdempotent(title: string, author: string, linkref: string, title': string, author': string)
    requires linkref != ""
    ensures var id := NewBook(title, author, linkref).value.ID();
      NewBook(title', author', id) == Ret(Book(title', author', id), None)
  {
  }

  /** A link reference with and without its leading "/" gives the same ID. */
  lemma SlashInsensitive(title: string, author: string, ref: string)
    requires ref != "" && ref[0] != '/'
    ensures NewBook(title, author, ref).value.ID() == NewBook(title, author, "/" + ref).value.ID()
  {
    assert HasPrefix("/" + ref, "/");
  }
}
