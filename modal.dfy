/** `initModals` in script.js: one shared dialog that shows an entry of the
    page's blog data, and hides again on its close button, a click on its
    backdrop, or the Escape key. While it is shown the page body does not
    scroll. */
module Modal {

  /** An entry of the embedded blog data. */
  datatype BlogEntry = BlogEntry(title: string, location: string, content: string)

  /** The markup written into `#modal-content`: the location line followed by
      the entry's own HTML, with the template literal's line breaks and
      indentation. */
  function RenderBody(e: BlogEntry): string
  {
    "\n                    <p class=\"text-gray-600 mb-4\">" + e.location + "</p>\n                    "
    + e.content + "\n                "
  }

  class BlogModal {
    /** The parsed blog data, keyed by the buttons' `data-blog` attribute. */
    const blogData: map<string, BlogEntry>
    /** The modal has the `show` class. */
    var shown: bool
    /** `document.body.style.overflow`. */
    var overflow: string
    var title: string
    var body: string

    /** Background scrolling is suppressed exactly while the modal is shown. */
    ghost predicate Valid()
      reads this
    {
      overflow == if shown then "hidden" else ""
    }

    constructor (blogData: map<string, BlogEntry>)
      ensures Valid() && !shown && this.blogData == blogData
      ensures title == "" && body == ""
    {
      this.blogData := blogData;
      shown, overflow := false, "";
      title, body := "", "";
    }

    /** A "read" button with `data-blog` = `id`: a known entry fills the title
        and body and shows the modal; an unknown one changes nothing. */
    method Open(id: string)
      requires Valid()
      modifies this
      ensures Valid()
      ensures id in blogData ==>
                shown && title == blogData[id].title && body == RenderBody(blogData[id])
      ensures id !in blogData ==>
                shown == old(shown) && title == old(title) && body == old(body)
    {
      if id in blogData {
        var blog := blogData[id];
        title := blog.title;
        body := RenderBody(blog);
        shown := true;
        overflow := "hidden";
      }
    }

    /** `closeModal`: hides the modal and gives the body its scrolling back;
        the last title and body stay in place. */
    method Close()
      modifies this
      ensures Valid() && !shown
      ensures title == old(title) && body == old(body)
    {
      shown := false;
      overflow := "";
    }

    /** A click inside the modal element closes it only when the click landed
        on the modal itself (the backdrop), not on a descendant. */
    method ClickModal(targetIsModal: bool)
      requires Valid()
      modifies this
      ensures Valid()
      ensures shown == (old(shown) && !targetIsModal)
      ensures title == old(title) && body == old(body)
    {
      if targetIsModal {
        Close();
      }
    }

    /** A key press anywhere: Escape closes the modal when it is shown. */
    method KeyDown(key: string)
      requires Valid()
      modifies this
      ensures Valid()
      ensures shown == (old(shown) && key != "Escape")
      ensures title == old(title) && body == old(body)
    {
      if key == "Escape" && shown {
        Close();
      }
    }
  }

  /** Opening an unknown entry is a no-op; every way of closing restores the
      body's scrolling. */
  method OpenThenDismiss(data: map<string, BlogEntry>, id: string, missing: string)
      returns (m: BlogModal)
    requires id in data && missing !in data
    ensures !m.shown && m.overflow == ""
    ensures m.title == data[id].title && m.body == RenderBody(data[id])
  {
    m := new BlogModal(data);
    m.Open(missing);
    assert !m.shown && m.overflow == "";
    m.Open(id);
    assert m.shown && m.overflow == "hidden" && m.title == data[id].title;
    m.ClickModal(false);
    assert m.shown;
    m.KeyDown("Enter");
    assert m.shown;
    m.KeyDown("Escape");
    assert !m.shown && m.overflow == "";
  }
}
