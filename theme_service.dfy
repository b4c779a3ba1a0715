/** The front end's light/dark theme switch (frontend.Services.ThemeService). */
module FrontendServices {
  const LightTheme: string := "custom-theme-light"
  const DarkTheme: string := "custom-theme-dark"

  class ThemeService {
    /** true for the light theme. */
    var state: bool

    /** A new service shows the light theme. */
    constructor()
      ensures state && GetTheme() == LightTheme
    {
      state := true;
    }

    /** Flips the theme. */
    method ToggleTheme()
      modifies this
      ensures state == !old(state)
    {
      state := !state;
    }

    /** The CSS class of the current theme: the light one exactly when the state is set,
        the dark one exactly when it is not. */
    function GetTheme(): (r: string)
      reads this
      ensures state <==> r == LightTheme
      ensures !state <==> r == DarkTheme
    {
      if state then LightTheme else DarkTheme
    }
  }

  /** Toggling twice brings back the state and the theme there were. */
  method ToggleTwice(service: ThemeService)
    modifies service
    ensures service.state == old(service.state)
    ensures service.GetTheme() == old(service.GetTheme())
  {
    service.ToggleTheme();
    service.ToggleTheme();
  }
}
