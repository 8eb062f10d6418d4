/**
 * The portfolio page component: its mobile menu flag, the scroll-spy's
 * active section, and the contact form's fields, error map and status.
 * Each handler is a method; React's state setters become field updates,
 * applied in the order the handler calls them.
 */
module PortfolioApp {
  import opened Options
  import opened Text
  import opened EmailPattern
  import opened ContactForm
  import opened ScrollSpy

  class App {
    var isMenuOpen: bool
    var activeSection: string
    var formData: FormData
    var formStatus: FormStatus
    var errors: map<Field, string>
    /** Status resets scheduled by successful submits that have not yet run. */
    var pendingResets: nat

    /** The active section is one of the page's sections, and every error
        entry is one of its field's messages or the cleared empty string. */
    ghost predicate Valid()
      reads this
    {
      activeSection in Sections && WellFormedErrors(errors)
    }

    /** The initial state of every `useState` hook. */
    constructor ()
      ensures Valid()
      ensures !isMenuOpen && activeSection == "hero"
      ensures formData == EmptyForm && formStatus == Idle && errors == map[] && pendingResets == 0
    {
      isMenuOpen := false;
      activeSection := "hero";
      formData := EmptyForm;
      formStatus := Idle;
      errors := map[];
      pendingResets := 0;
    }

    /** The scroll listener: probe `scrollY + 100` against every section in
        page order, making each section that holds it the active one. */
    method HandleScroll(scrollY: int, elements: map<string, Box>)
      requires Valid()
      modifies this`activeSection
      ensures Valid()
      ensures match LastMatchIndex(Sections, elements, scrollY + Lookahead)
              case Some(k) => activeSection == Sections[k]
              case None => activeSection == old(activeSection)
    {
      var scrollPos := scrollY + Lookahead;
      for i := 0 to |Sections|
        invariant activeSection == ActiveAfter(Sections[..i], elements, scrollPos, old(activeSection))
        invariant activeSection in Sections
      {
        ActiveAfterStep(Sections, i, elements, scrollPos, old(activeSection));
        var section := Sections[i];
        if section in elements {
          var box := elements[section];
          if scrollPos >= box.offsetTop && scrollPos < box.offsetTop + box.height {
            activeSection := section;
          }
        }
      }
      assert Sections[..|Sections|] == Sections;
    }

    /** A navigation click: the page scrolls to the section (left to the
        browser) and the mobile menu closes, whichever section it was. */
    method ScrollToSection(sectionId: string)
      modifies this`isMenuOpen
      ensures !isMenuOpen
    {
      isMenuOpen := false;
    }

    /** The menu button flips the mobile menu. */
    method ToggleMenu()
      modifies this`isMenuOpen
      ensures isMenuOpen == !old(isMenuOpen)
    {
      isMenuOpen := !isMenuOpen;
    }

    /** `validateForm`: build a fresh error map field by field, replace the
        old one with it, and report whether it is empty. */
    method ValidateForm() returns (ok: bool)
      requires Valid()
      modifies this`errors
      ensures Valid()
      ensures errors == Validate(formData)
      ensures ok <==> errors == map[]
    {
      var newErrors: map<Field, string> := map[];
      if IsBlank(formData.name) {
        newErrors := newErrors[Name := NameRequired];
      }
      if IsBlank(formData.email) {
        newErrors := newErrors[Email := EmailRequired];
      } else if !HasEmailShape(formData.email) {
        newErrors := newErrors[Email := EmailInvalid];
      }
      if IsBlank(formData.message) {
        newErrors := newErrors[Message := MessageRequired];
      }
      SameErrors(newErrors, Validate(formData));
      ValidateWellFormed(formData);
      errors := newErrors;
      ok := |newErrors| == 0;
    }

    /** `handleSubmit`: validate; on success record the success status,
        clear all three fields and schedule the status reset; otherwise
        record the error status and keep what was typed. */
    method HandleSubmit()
      requires Valid()
      modifies this`errors, this`formStatus, this`formData, this`pendingResets
      ensures Valid()
      ensures errors == Validate(old(formData))
      ensures errors == map[] ==>
        formStatus == Success && formData == EmptyForm && pendingResets == old(pendingResets) + 1
      ensures errors != map[] ==>
        formStatus == Error && formData == old(formData) && pendingResets == old(pendingResets)
    {
      var ok := ValidateForm();
      if ok {
        formStatus := Success;
        formData := EmptyForm;
        pendingResets := pendingResets + 1;
      } else {
        formStatus := Error;
      }
    }

    /** A scheduled reset runs: the status returns to idle, whatever a later
        submit set it to in the meantime, and nothing else changes. */
    method StatusResetFired()
      requires pendingResets > 0
      modifies this`formStatus, this`pendingResets
      ensures formStatus == Idle && pendingResets == old(pendingResets) - 1
    {
      formStatus := Idle;
      pendingResets := pendingResets - 1;
    }

    /** `handleInputChange`: store the typed value in its field, and clear
        that field's error entry to the empty string when it showed one. */
    method HandleInputChange(field: Field, value: string)
      requires Valid()
      modifies this`formData, this`errors
      ensures Valid()
      ensures formData == old(formData).With(field, value)
      ensures old(ShowsError(field)) ==> errors == old(errors)[field := ""]
      ensures !old(ShowsError(field)) ==> errors == old(errors)
    {
      formData := formData.With(field, value);
      if field in errors && errors[field] != "" {
        errors := errors[field := ""];
      }
    }

    /** `errors[field]` is truthy: an entry exists and is not the empty string. */
    predicate ShowsError(field: Field)
      reads this
    {
      field in errors && errors[field] != ""
    }
  }
}
